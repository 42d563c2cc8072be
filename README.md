# TextAnimation: a verified model of per-glyph vertex animation

`TextAnimation` is a Unity component that animates a TextMeshPro text object glyph by
glyph. It holds one animation mode at a time. Setting a mode stops whatever coroutine
runs and starts the coroutine for the new mode:

- **ChangeColor** repaints one character per step in a random opaque colour. A cursor
  walks the characters and wraps at the character count.
- **Wave / UpAndDown** add a vertical `SmoothStep(PingPong(..))` offset to every visible
  glyph on each tick. In Wave mode the phase also depends on the glyph's index.
- **Jitter / JitterTogether** recompute every visible glyph from a cached copy of the
  vertex buffers. Each tick applies a random translation and twist about the glyph's
  midpoint, drawn per glyph in Jitter mode and once per tick in JitterTogether mode.
- **Dangle / DangleTogether** recompute every visible glyph from the cached copy. Each
  glyph is rotated about its top-centre by an oscillating angle. In Dangle mode the angle
  comes from the glyph's own slot of a 32-entry table; in DangleTogether mode every glyph
  shares one swing.

The model has four modules.

- `Geometry` holds vectors, quads, the `Matrix4x4.TRS` transform with a Z rotation, and
  the easing helpers. It proves that the transform keeps distances when the scale is 1
  and the supplied cosine and sine satisfy cos² + sin² = 1, and that SmoothStep stays
  between its ends.
- `Glyphs` holds character info and the per-material buffers. It defines `ApplyEdits`,
  the fold that every positional character loop is proved against: characters `0 .. n-1`
  are visited in order, and each visible glyph's quad gets one edit. Pointwise lemmas
  say what that fold leaves at every glyph and every other vertex.
- `Effects` holds the modes, the tunables and the 32-slot table. It also holds the edit
  sequence of one tick of each transform, and the lemmas that state what a tick does to
  the glyphs.
- `Animator` holds the class `TextAnimation`. Its fields are the mode, the text-changed
  flag, the cached snapshot, the live vertex and colour arrays, the table, the tick
  counter, the colour cursor and the coroutine that is alive. Its methods cover the mode
  controller and one resumption of each coroutine. They write the arrays in place, and
  each is proved against the `Effects` functions.

Three points where the model follows the code:

- **More than 32 visible characters.** Jitter and Dangle index their 32-entry table with
  the character index `i` directly; no slot is reused. The first visible character at
  index 32 or later throws, which ends the coroutine. The model returns `Faulted` and
  marks no coroutine as running.
  - Jitter reads the slot (line 470) before writing the glyph, so all earlier glyphs are
    done and that glyph is untouched.
  - Dangle writes the pivot-relative quad (lines 613-616) before reading the slot
    (line 621), so that glyph is left translated to its top-centre (`DangledBuffers`).
- **Wave adds up.** Wave adds its offset to the live buffer, not to the cached copy. Its
  offsets therefore accumulate from tick to tick (`WaveTicksAccumulate`), while Jitter
  and Dangle restart from the snapshot on every tick.
- **The mode check in ChangeColor.** Only the ChangeColor coroutine checks the mode
  (lines 262-265). Through the public methods the coroutine alive is always the current
  mode's, or none (`Coherent`), so that `yield break` branch is modelled but is never
  reached through the public methods.

Inputs that the component gets from Unity are parameters:

- the character info and count of `textInfo`, read afresh by each coroutine step;
- the random values each step draws, constrained to the ranges `Random.Range` gives (the
  integer overload excludes 255);
- cosine and sine of an angle in degrees, as the `Trig` datatype.

## Model

| member | source | states |
|---|---|---|
| Effects.RoutineFor | TextAnimation.cs:176-210 | Each mode starts exactly one coroutine: ChangeColor starts the colour loop, Wave and UpAndDown the wave loop, the Jitter pair the jitter loop, the Dangle pair the dangle loop, and None starts nothing (each an if-and-only-if). |
| Animator.TextAnimation.constructor | TextAnimation.cs:59-60 | A new component keeps the mode it was given, has the text-changed flag clear and has no coroutine running. |
| Animator.TextAnimation.StartAnimation | TextAnimation.cs:172-211 | Stops the running coroutine and starts the mode's own, as `Restarted` spells out. Positional loops reset the tick counter to 0, set the flag and copy the live buffers. Jitter and Dangle get a fresh table of the mode's kind. The colour loop resets its cursor. The mode is unchanged and the new state is `Coherent`. |
| Animator.TextAnimation.SetAnimationMode | TextAnimation.cs:220-228 | Returns the requested mode, which is now the mode. Asking for the current mode changes nothing at all. Any other mode restarts the animation as StartAnimation does. |
| Animator.TextAnimation.StopAnimation | TextAnimation.cs:213-218 | The mode becomes None and no coroutine runs. |
| Animator.TextAnimation.GetAnimationMode | TextAnimation.cs:230-233 | Returns the current mode. |
| Animator.TextAnimation.NotifyTextHasChanged | TextAnimation.cs:241-245 | Sets the flag that makes the next positional step re-copy the buffers. |
| Animator.FillSlots | TextAnimation.cs:416-420 | Slot k receives the k-th drawn angle range and speed. Its `angle` is kept. |
| Animator.JitterTable | TextAnimation.cs:411-431 | A fresh 32-slot table. In Jitter mode it holds one independent draw per slot. Otherwise it holds one draw copied into every slot. |
| Animator.DangleTable | TextAnimation.cs:552-561 | A fresh 32-slot table. In Dangle mode it holds one draw per slot. In DangleTogether mode it stays all zero. |
| Effects.IndependentSlots | TextAnimation.cs:416-420 | The table has one slot per draw. What each slot holds is stated by IndependentSlotsInRange. |
| Effects.IndependentSlotsInRange | TextAnimation.cs:416-420 | In an independent table, slot k holds exactly the k-th draw, so it lies in the mode's configured angle and speed ranges. |
| Effects.SharedSlots | TextAnimation.cs:424-430 | All 32 slots are equal and carry the single shared draw. |
| Effects.BlankSlots | TextAnimation.cs:553 | A freshly allocated table has every slot zero. |
| Animator.TextAnimation.RefreshSnapshot | TextAnimation.cs:324-331 | With the flag set, the snapshot becomes the live buffers. Without it, the snapshot is kept. The flag ends clear. |
| Animator.TextAnimation.StoreColor | TextAnimation.cs:290-293 | The live colour buffers become `Paint` of the old ones: the glyph's four colours are set and every other entry is kept. |
| Glyphs.Paint | TextAnimation.cs:290-293 | Exactly the four entries `v .. v+3` of material `m` take the colour. Every other entry, and every buffer length, is unchanged. |
| Animator.TextAnimation.ColorTick | TextAnimation.cs:258-305 | One colour step has four cases. If the mode has moved on, the coroutine stops. With no characters, it waits. A cursor past the character table throws and ends the coroutine. Otherwise the cursor's glyph, if visible, is painted with the drawn opaque colour, and the cursor advances modulo the character count. Each case says which buffers are unchanged. |
| Glyphs.WithQuad | TextAnimation.cs:492-495 | Writing four vertices keeps every buffer length, and the quad then reads back as written. |
| Glyphs.WithQuadElsewhere | TextAnimation.cs:492-495 | Writing a glyph's quad keeps every vertex outside it. |
| Glyphs.WithQuadTwice | TextAnimation.cs:509-517 | Two passes over the same four vertices leave only the last value. |
| Glyphs.ApplyEdits | TextAnimation.cs:342-383 | The character loop keeps every buffer length. |
| Glyphs.ApplyEditsNext | TextAnimation.cs:342-348 | One more character: a visible one has its edit applied to its quad as the earlier characters left it; an invisible one is skipped. |
| Glyphs.ApplyEditsUntouched | TextAnimation.cs:342-383 | A vertex that no visible glyph among those visited owns keeps its value. |
| Glyphs.EarlierGlyphsMissQuad | TextAnimation.cs:342-357 | When glyphs do not overlap, no earlier glyph owns any of glyph k's vertices. |
| Glyphs.ApplyEditsAt | TextAnimation.cs:342-383 | When glyphs do not overlap, each visited visible glyph ends with exactly its own edit applied to its quad as it stood before the loop. |
| Animator.TextAnimation.StoreQuad | TextAnimation.cs:492-495 | The live buffers become `WithQuad` of the old ones. |
| Animator.TextAnimation.ShiftQuad | TextAnimation.cs:379-382 | The glyph's quad is translated by the offset, in place. |
| Animator.TextAnimation.TransformQuad | TextAnimation.cs:509-517 | The glyph's quad becomes pivot + TRS(corner) of its current corners, in place. |
| Effects.SwingBounded | TextAnimation.cs:372 | `SmoothStep(-a, a, PingPong(t, 1))` never exceeds the amplitude `a` in absolute value. |
| Geometry.Repeat | TextAnimation.cs:372 | `Mathf.Repeat(t, L)` lies in [0, L). |
| Geometry.PingPong | TextAnimation.cs:372 | `Mathf.PingPong(t, L)` lies in [0, L]. |
| Geometry.SmoothStepBetween | TextAnimation.cs:372 | `Mathf.SmoothStep(from, to, t)` lies between `from` and `to` for every t. |
| Geometry.SmoothStepEnds | TextAnimation.cs:372 | SmoothStep starts at `from` and ends at `to`. |
| Geometry.HermiteWeightInUnit | TextAnimation.cs:372 | The Hermite weight 3u² - 2u³ stays in [0, 1] on [0, 1]. |
| Animator.TextAnimation.WaveGlyphs | TextAnimation.cs:342-383 | The live buffers become the Wave fold over all characters, each visible glyph shifted by its own offset. |
| Animator.TextAnimation.WaveTick | TextAnimation.cs:322-395 | One wave step refreshes the snapshot if the flag is set. With no characters it waits and changes nothing else. Otherwise it moves every visible glyph and increments the tick counter. The colour buffers are unchanged. |
| Effects.WaveEdits | TextAnimation.cs:342-383 | One edit per character, each a shift by that glyph's `(0, wAnim)`. What that does to the glyphs is stated by WaveTickMovesGlyph. |
| Effects.WaveTickMovesGlyph | TextAnimation.cs:342-383 | After a wave step, each visible glyph is its pre-step quad translated by `(0, wAnim)`, with absolute value at most maxWaveHeight. |
| Effects.UpAndDownMovesInUnison | TextAnimation.cs:366-371 | Outside Wave mode, every visible glyph moves by the same offset. |
| Effects.WaveTicksAccumulate | TextAnimation.cs:379-382 | Two wave steps add up: the glyph moves by the sum of both steps' heights. |
| Effects.WaveAtTickZero | TextAnimation.cs:367-372 | With the default tunables at tick 0, Wave's second glyph is already at a different height from its first, while UpAndDown keeps them level. The first glyph starts at -maxWaveHeight. |
| Effects.FirstOverflow | TextAnimation.cs:461-470 | Where the Jitter and Dangle loops stop: the first visible character at index 32 or later, or the character count when there is none. It is below the count exactly when such a character exists. |
| Effects.VisibleFrom | TextAnimation.cs:461-467 | The first visible character at or after an index, skipping the invisible ones. |
| Effects.FirstOverflowAt | TextAnimation.cs:466-470 | A loop that reaches a visible character past the table without passing an earlier one has found the first overflow. |
| Animator.TextAnimation.JitterGlyph | TextAnimation.cs:479-517 | One visible glyph's quad becomes `JitterQuad` of its cached quad: the TRS of the draw, applied about the snapshot midpoint. |
| Animator.TextAnimation.JitterStep | TextAnimation.cs:461-519 | Handles one character: either the fold advances by one, or the loop stops at the first overflow with the buffers untouched. |
| Animator.TextAnimation.JitterGlyphs | TextAnimation.cs:461-520 | The loop ends in a fault exactly when a visible character lies past the table. The live buffers become the Jitter fold up to the first overflow. |
| Animator.TextAnimation.JitterIteration | TextAnimation.cs:461-531 | After the loop, a fault ends the coroutine with the tick counter kept. Otherwise the counter advances. |
| Animator.TextAnimation.JitterTick | TextAnimation.cs:436-531 | One jitter step refreshes the snapshot if the flag is set and waits when there is no text. Otherwise every visible glyph before the first overflow is recomputed from the snapshot. Then either the coroutine faults, or the counter advances. |
| Effects.JitterEdits | TextAnimation.cs:461-517 | One edit per character, replacing each visible glyph by a quad computed from the snapshot. What that does to the glyphs is stated by JitterTickFromSnapshot. |
| Effects.JitterTickFromSnapshot | TextAnimation.cs:479-517 | After a jitter step, a visible glyph is pivot + T(source - pivot) of its cached quad, whatever the live buffer held. |
| Effects.JitterIgnoresPreviousTick | TextAnimation.cs:490-495 | Two different live buffers give the same glyph after the same jitter step. |
| Effects.JitterTogetherMovesInConcert | TextAnimation.cs:456-459 | In JitterTogether mode, glyphs shaped alike about their midpoints are still shaped alike after the step. |
| Effects.JitterStillDrawKeepsSnapshot | TextAnimation.cs:505-517 | A draw with no offset and no twist, at unit size, leaves the glyph on its snapshot. |
| Geometry.TransformAboutIdentity | TextAnimation.cs:507-517 | A motion that neither moves, turns nor scales leaves the quad where it is. |
| Geometry.ApplyIsRigid | TextAnimation.cs:507-512 | With unit scale and cos² + sin² = 1, TRS keeps the distance between two points. |
| Geometry.RotationKeepsDistance | TextAnimation.cs:637 | A planar rotation keeps squared distances. |
| Geometry.TransformAboutIsRigid | TextAnimation.cs:637-647 | Transforming about a pivot keeps the distance between two corners. |
| Geometry.TransformAboutRelative | TextAnimation.cs:507-517 | One shared motion keeps two glyphs shaped alike about their pivots. |
| Animator.TextAnimation.SwingSlot | TextAnimation.cs:618-631 | Returns the glyph's dangle angle: its own slot and phase in Dangle mode, the shared swing otherwise. In Dangle mode only that slot's angle is recorded in the table. |
| Animator.TextAnimation.DangleGlyph | TextAnimation.cs:589-652 | A glyph with a slot becomes `DangleQuad` of its cached quad, and its slot is updated in Dangle mode. A glyph past the table is left moved to its top-centre with the table unchanged, and the step faults. |
| Animator.TextAnimation.DangleStep | TextAnimation.cs:587-653 | Handles one character: either the fold and the table advance by one, or the loop stops at the first overflow in the `DangledBuffers` state. |
| Animator.TextAnimation.DangleGlyphs | TextAnimation.cs:587-653 | The loop faults exactly when a visible character lies past the table. The buffers become `DangledBuffers` and the table becomes `SwungSlots`. |
| Animator.TextAnimation.DangleIteration | TextAnimation.cs:587-664 | After the loop, a fault ends the coroutine. Otherwise the counter advances. |
| Animator.TextAnimation.DangleTick | TextAnimation.cs:566-665 | One dangle step refreshes the snapshot, waits when there is no text, and otherwise swings every glyph up to the first overflow. It then faults or advances the counter, with the table recorded as `SwungSlots`. |
| Effects.DangleEdits | TextAnimation.cs:587-647 | One edit per character, replacing each visible glyph that has a slot by a quad computed from the snapshot. What that does to the glyphs is stated by DangleTickFromSnapshot. |
| Effects.SwungSlots | TextAnimation.cs:622-652 | Every slot keeps its angle range and speed, and DangleTogether leaves the table unchanged. |
| Effects.SwungSlotsNext | TextAnimation.cs:649-652 | One more character sets at most that character's slot angle. |
| Effects.SwungSlotsPastTable | TextAnimation.cs:621 | Characters past the table leave the table as it was. |
| Effects.DangledBuffers | TextAnimation.cs:587-653 | The Dangle loop keeps every buffer length. |
| Effects.DangledBuffersComplete | TextAnimation.cs:587-653 | A loop that ran to the end swung every visible glyph from the snapshot. |
| Effects.DangledBuffersStopped | TextAnimation.cs:613-621 | A loop that faults at character n stops at the first overflow. It leaves that glyph translated to its top-centre. |
| Effects.DangleTickFromSnapshot | TextAnimation.cs:602-647 | After the Dangle loop has visited any prefix of the characters, each visited glyph with a slot is its cached quad rotated about its top-centre, whatever the live buffer held. |
| Effects.DangledBuffersFromSnapshot | TextAnimation.cs:587-653 | After a whole Dangle step, faulting or not, each visible glyph with a slot is its cached quad rotated about its top-centre. The glyph past the table that stops the loop shares no vertex with it. |
| Effects.DangleTogetherSwingsInConcert | TextAnimation.cs:632-637 | In DangleTogether mode all glyphs turn by one angle, so glyphs that hang alike from their pivots still do afterwards. |
| Effects.WaveMod | TextAnimation.cs:367-371 | Definition, with no contract: `waveMod` is the tick counter, plus the glyph index in Wave mode only. |
| Effects.WavePhase | TextAnimation.cs:372 | Definition, with no contract: the PingPong argument `waveMod / 25 * maxWaveSpeed * SpeedMultiplier`. |
| Effects.WaveHeight | TextAnimation.cs:372 | Definition, with no contract: `wAnim = SmoothStep(-maxWaveHeight, maxWaveHeight, PingPong(phase, 1))`. |
| Effects.DangleAngle | TextAnimation.cs:618-635 | Definition, with no contract: in Dangle mode the glyph's slot swing with the index added to the phase; otherwise the shared swing from maxDangleAngle and maxDangleSpeed. |
| Effects.MidPivot | TextAnimation.cs:484 | Definition, with no contract: the midpoint of corners 0 and 2, with z dropped by the Vector2. |
| Effects.TopCenterPivot | TextAnimation.cs:605 | Definition, with no contract: the mid-x of corners 0 and 2 at the character's `topRight.y`, with z zero. |
| Effects.JitterDrawFor | TextAnimation.cs:499-504 | Definition, with no contract: Jitter mode draws per glyph; any other mode uses the draw made at the top of the tick. |
| Effects.JitterMotion | TextAnimation.cs:505-507 | Definition, with no contract: TRS(offset * CurveScale, twist * AngleMultiplier, SizeMultiplier). |
| Effects.DangleMotion | TextAnimation.cs:637 | Definition, with no contract: TRS(zero, angle * AngleMultiplier, SizeMultiplier). |
| Geometry.RotateZ | TextAnimation.cs:507 | Definition, with no contract: `Quaternion.Euler(0, 0, deg)` applied to a point. |
| Geometry.Apply | TextAnimation.cs:509-512 | Definition, with no contract: `Matrix4x4.TRS(...).MultiplyPoint3x4`, that is scale, then rotate, then translate. |
| Geometry.SmoothStep | TextAnimation.cs:372 | Definition, with no contract: `Mathf.SmoothStep` as cubic Hermite interpolation on the clamped t. |
| Effects.SlotDrawInRange | TextAnimation.cs:418-425 | Definition, with no contract: a start-up draw lies in the Jitter ranges (lines 418-419, 424-425) or the Dangle ranges (lines 558-559) of its mode. |
| Animator.ColorDrawInRange | TextAnimation.cs:288 | Definition, with no contract: each channel of `(byte)Random.Range(0, 255)` is below 255. |
| Effects.Swing | TextAnimation.cs:372 | Definition, with no contract: `SmoothStep(-a, a, PingPong(t, 1))`, the oscillation written out at lines 372, 628 and 634. |
| Effects.WaveOffset | TextAnimation.cs:373-377 | Definition, with no contract: the vertical-only `waveOffset = (0, wAnim)`, widened to a Vector3 with z zero. |
| Effects.JitterDrawInRange | TextAnimation.cs:457-459 | Definition, with no contract: the Random.Range bounds of the two offsets and the twist, the same for the shared draw (lines 457-459) and the per-glyph draw (lines 501-503). |
| Effects.JitterQuad | TextAnimation.cs:484-517 | Definition, with no contract: the quad Jitter writes, the transform of the cached quad about its midpoint. |
| Effects.DangleQuad | TextAnimation.cs:605-647 | Definition, with no contract: the quad Dangle writes, the rotation of the cached quad about its top-centre. |
| Geometry.Translate | TextAnimation.cs:379-382 | Definition, with no contract: the same vector added to all four corners, as the `+=` at lines 379-382 and 514-517. |
| Geometry.Relative | TextAnimation.cs:492-495 | Definition, with no contract: the pivot subtracted from all four corners. |
| Geometry.AboutPivot | TextAnimation.cs:492-517 | Definition, with no contract: one corner moved to pivot-relative coordinates, transformed by MultiplyPoint3x4 and moved back. |
| Geometry.MoveQuad | TextAnimation.cs:509-512 | Definition, with no contract: MultiplyPoint3x4 on each of the four corners. |
| Geometry.TransformAbout | TextAnimation.cs:492-517 | Definition, with no contract: subtract the pivot, transform, add the pivot back, for all four corners; Dangle repeats it at lines 613-647. |
| Geometry.Clamp01 | TextAnimation.cs:372 | Definition, with no contract: the clamp of t to [0, 1] that `Mathf.SmoothStep` applies first. |

## Left out

- `ForceMeshUpdate` and `ResetMeshVertices` (lines 169, 175, 217, 236-239, 250, 312, 402, 542) regenerate the mesh inside TextMeshPro. That code is not part of this model. The buffers keep their contents and their size over the component's life, and TextMeshPro reallocating them is not modelled. In the source, StartAnimation (line 175), StopAnimation (line 217) and the set-up of each coroutine (lines 250, 312, 402, 542) return every glyph to its rest position. The model does not: after `StopAnimation` the last tick's displacement stays in the live buffers, and the snapshot a restart takes is of the live buffers as they are, which may already be displaced (for instance by Wave's accumulated offsets).
- Pushing buffers to the renderer (`UpdateVertexData`, `UpdateGeometry`, `mesh.vertices` at lines 296, 386-390, 523-527, 655-660) is output to Unity and is left out. So is Dangle's unused copy of `mesh.vertices` (lines 543, 573).
- Coroutine timing (`WaitForSeconds`) is left out. One resumption of a coroutine is one call of the matching `...Tick` method. The caller makes that call, including the first iteration that `StartCoroutine` runs synchronously.
- `Random.Range`, cosine and sine are left out. Their results are parameters of each step, within the ranges the engine documents.
- Floating point: positions and tunables are `real`, so float rounding, NaN and infinities are not modelled.
- Integer wrap-around: the source's `int loopCount` (lines 316, 408, 549), and `waveMod` and `dangleMod` after the index is added (lines 370, 624), wrap after 2^31 ticks. The model's `loopCount: nat` and `WaveMod` are unbounded and never wrap.
- JitterTick: does not record the write-only `angle` that the Jitter loop stores in its slot (lines 497, 519). Nothing reads it. It divides by `jitterDistance`, which may be zero and gives a float infinity rather than a fault.
- `Awake`, `Start`, the debug `FixedUpdate` cycler and `ChooseRandomAMValues` (lines 123-170) are Unity lifecycle and editor test code. `Debug.Log` and the inspector `[Range]` attributes are left out.
- `Glyphs.Fits`, which every step requires, assumes TextMeshPro's layout: every counted entry of the character table names an existing material, and a visible one owns four vertices of it. Stale entries past the count are read only by ChangeColor, when its cursor sits past a shrunk text; `ColorTick` requires the same of that one entry. An index fault from an inconsistent layout is not modelled. The cursor running off the character table in ChangeColor, and a glyph past the 32-slot table, are modelled.
- `Glyphs.Disjoint`, which every glyph-level lemma requires (`ApplyEditsAt`, `WaveTickMovesGlyph`, `JitterTickFromSnapshot`, `DangleTickFromSnapshot` and those built on them), assumes that distinct visible characters own distinct vertices, as TextMeshPro's layout gives them. The methods do not require it. With overlapping glyphs they still equal the `ApplyEdits` fold, but the per-glyph statements are not claimed.
