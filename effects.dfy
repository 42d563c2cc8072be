/** The animation modes, the designer tunables, the 32-slot per-character table, and
    what one tick of each positional transform does to every visible glyph, stated as
    a sequence of per-glyph edits for `Glyphs.ApplyEdits`. */
module Effects {
  import opened Geometry
  import opened Glyphs

  /** Size of the per-character table (MAX_CHARS_TO_ANIMATE). */
  const MaxCharsToAnimate: nat := 32

  /** Ticks per unit of phase in Wave and Dangle (the `/ 25f`). */
  const PhaseTicks: real := 25.0

  datatype AnimationMode = None | ChangeColor | Wave | UpAndDown | Jitter | JitterTogether | Dangle | DangleTogether

  /** The coroutine a mode runs; `Idle` when none is alive. */
  datatype Routine = Idle | ColorLoop | WaveLoop | JitterLoop | DangleLoop

  /** StartAnimation's switch: the mode pairs share one coroutine, and None starts nothing. */
  function RoutineFor(mode: AnimationMode): (r: Routine)
    ensures r == Idle <==> mode == None
    ensures r == ColorLoop <==> mode == ChangeColor
    ensures r == WaveLoop <==> mode == Wave || mode == UpAndDown
    ensures r == JitterLoop <==> mode == Jitter || mode == JitterTogether
    ensures r == DangleLoop <==> mode == Dangle || mode == DangleTogether
  {
    match mode
    case None => Idle
    case ChangeColor => ColorLoop
    case Wave => WaveLoop
    case UpAndDown => WaveLoop
    case Jitter => JitterLoop
    case JitterTogether => JitterLoop
    case Dangle => DangleLoop
    case DangleTogether => DangleLoop
  }

  /** The public tunables the transforms read. The inspector's ranges are not enforced
      by the code, so any real is allowed. */
  datatype Config = Config(
    angleMultiplier: real, speedMultiplier: real, sizeMultiplier: real, curveScale: real,
    maxJitterSpeed: real, minJitterSpeed: real, maxJitterAngle: real, minJitterAngle: real,
    jitterDistance: real, jitterTwist: real,
    maxWaveHeight: real, maxWaveSpeed: real,
    maxDangleSpeed: real, minDangleSpeed: real, maxDangleAngle: real, minDangleAngle: real)

  /** A float drawn by Random.Range(a, b) lies between a and b, whichever is larger. */
  predicate Between(x: real, a: real, b: real)
  {
    (a <= x <= b) || (b <= x <= a)
  }

  function Abs(x: real): real { if x < 0.0 then -x else x }

  // ---------------------------------------------------------------------
  // The oscillation shared by Wave, Jitter's angle and Dangle
  // ---------------------------------------------------------------------

  /** SmoothStep(-amplitude, amplitude, PingPong(phase, 1)). */
  function Swing(amplitude: real, phase: real): real
  {
    SmoothStep(-amplitude, amplitude, PingPong(phase, 1.0))
  }

  /** The oscillation never exceeds its amplitude. */
  lemma SwingBounded(amplitude: real, phase: real)
    ensures -Abs(amplitude) <= Swing(amplitude, phase) <= Abs(amplitude)
  {
    SmoothStepBetween(-amplitude, amplitude, PingPong(phase, 1.0));
  }

  // ---------------------------------------------------------------------
  // The per-character table
  // ---------------------------------------------------------------------

  /** One slot of the table (struct JitterAnim). */
  datatype JitterAnim = JitterAnim(angleRange: real, angle: real, speed: real)

  /** The value `new JitterAnim[...]` gives every slot. */
  const BlankSlot := JitterAnim(0.0, 0.0, 0.0)

  /** One (angleRange, speed) pair drawn at animation start. */
  datatype SlotDraw = SlotDraw(angleRange: real, speed: real)

  /** The ranges the start-up draws come from: Jitter's for the Jitter pair, Dangle's for
      the Dangle pair; the other modes draw nothing. */
  predicate SlotDrawInRange(mode: AnimationMode, cfg: Config, d: SlotDraw)
  {
    match RoutineFor(mode)
    case JitterLoop =>
      Between(d.angleRange, cfg.minJitterAngle, cfg.maxJitterAngle) &&
      Between(d.speed, cfg.minJitterSpeed, cfg.maxJitterSpeed)
    case DangleLoop =>
      Between(d.angleRange, cfg.minDangleAngle, cfg.maxDangleAngle) &&
      Between(d.speed, cfg.minDangleSpeed, cfg.maxDangleSpeed)
    case _ => true
  }

  /** Independent modes: slot k takes the k-th draw. */
  function IndependentSlots(draws: seq<SlotDraw>): (r: seq<JitterAnim>)
    ensures |r| == |draws|
  {
    seq(|draws|, k requires 0 <= k < |draws| => JitterAnim(draws[k].angleRange, 0.0, draws[k].speed))
  }

  /** Each independent slot holds a pair from the configured ranges, its own draw. */
  lemma IndependentSlotsInRange(mode: AnimationMode, cfg: Config, draws: seq<SlotDraw>, k: nat)
    requires k < |draws| && forall j :: 0 <= j < |draws| ==> SlotDrawInRange(mode, cfg, draws[j])
    ensures SlotDrawInRange(mode, cfg, SlotDraw(IndependentSlots(draws)[k].angleRange, IndependentSlots(draws)[k].speed))
    ensures IndependentSlots(draws)[k].angleRange == draws[k].angleRange
    ensures IndependentSlots(draws)[k].speed == draws[k].speed
  {
    assert IndependentSlots(draws)[k] == JitterAnim(draws[k].angleRange, 0.0, draws[k].speed);
  }

  /** JitterTogether: one pair copied into every slot. */
  function SharedSlots(d: SlotDraw): (r: seq<JitterAnim>)
    ensures |r| == MaxCharsToAnimate
    ensures forall j, k :: 0 <= j < |r| && 0 <= k < |r| ==> r[j] == r[k]
    ensures forall k :: 0 <= k < |r| ==> r[k].angleRange == d.angleRange && r[k].speed == d.speed
  {
    seq(MaxCharsToAnimate, _ => JitterAnim(d.angleRange, 0.0, d.speed))
  }

  /** The table a freshly allocated array holds: every slot zero. */
  function BlankSlots(): (r: seq<JitterAnim>)
    ensures |r| == MaxCharsToAnimate && forall k :: 0 <= k < |r| ==> r[k] == BlankSlot
  {
    seq(MaxCharsToAnimate, _ => BlankSlot)
  }

  /** The first visible character at index `from` or later among the first
      `characterCount`, or `characterCount` when there is none. */
  function VisibleFrom(info: TextInfo, from: nat): (k: nat)
    requires info.characterCount <= |info.characterInfo|
    ensures k <= info.characterCount
    ensures from <= info.characterCount ==> from <= k
    ensures k < info.characterCount ==> info.characterInfo[k].isVisible
    ensures forall i :: from <= i < k ==> !info.characterInfo[i].isVisible
    decreases info.characterCount - from
  {
    if from >= info.characterCount then info.characterCount
    else if info.characterInfo[from].isVisible then from
    else VisibleFrom(info, from + 1)
  }

  /** Where the Jitter and Dangle character loops stop: the first visible character
      whose `vertexAnim[i]` lies past the 32-slot table, or `characterCount`. */
  function FirstOverflow(info: TextInfo): (k: nat)
    requires info.characterCount <= |info.characterInfo|
    ensures k <= info.characterCount
    ensures k < info.characterCount <==>
      exists i :: MaxCharsToAnimate <= i < info.characterCount && info.characterInfo[i].isVisible
    ensures k < info.characterCount ==> MaxCharsToAnimate <= k && info.characterInfo[k].isVisible
    ensures forall i :: MaxCharsToAnimate <= i < k ==> !info.characterInfo[i].isVisible
  {
    VisibleFrom(info, MaxCharsToAnimate)
  }

  /** A character loop that stops at visible character `n` past the table, having passed
      no earlier one, stops at the first overflow. */
  lemma FirstOverflowAt(info: TextInfo, n: nat)
    requires info.characterCount <= |info.characterInfo|
    requires MaxCharsToAnimate <= n <= FirstOverflow(info) && n < info.characterCount && info.characterInfo[n].isVisible
    ensures FirstOverflow(info) == n
  {
  }

  // ---------------------------------------------------------------------
  // Wave / UpAndDown
  // ---------------------------------------------------------------------

  /** `waveMod`: the tick counter, plus the glyph index in Wave mode only. */
  function WaveMod(mode: AnimationMode, loopCount: int, i: int): int
  {
    if mode == Wave then loopCount + i else loopCount
  }

  /** The argument Wave passes to PingPong for glyph `i` at tick `loopCount`. */
  function WavePhase(cfg: Config, mode: AnimationMode, loopCount: int, i: int): real
  {
    WaveMod(mode, loopCount, i) as real / PhaseTicks * cfg.maxWaveSpeed * cfg.speedMultiplier
  }

  /** The vertical offset `wAnim` of glyph `i` at tick `loopCount`. */
  function WaveHeight(cfg: Config, mode: AnimationMode, loopCount: int, i: int): real
  {
    Swing(cfg.maxWaveHeight, WavePhase(cfg, mode, loopCount, i))
  }

  /** The vector `waveOffset` added to each corner of glyph `i`: vertical only. */
  function WaveOffset(cfg: Config, mode: AnimationMode, loopCount: int, i: int): Vec3
  {
    Vec3(0.0, WaveHeight(cfg, mode, loopCount, i), 0.0)
  }

  /** One Wave tick: every glyph's current quad moves by its own vertical offset. */
  function WaveEdits(info: TextInfo, cfg: Config, mode: AnimationMode, loopCount: int): (r: seq<Edit>)
    ensures |r| == info.characterCount
  {
    seq(info.characterCount, i => Shift(WaveOffset(cfg, mode, loopCount, i)))
  }

  /** A Wave tick moves every visible glyph's quad vertically, by at most maxWaveHeight,
      starting from where the quad was before the tick (the live buffer). */
  lemma WaveTickMovesGlyph(buf: seq<seq<Vec3>>, info: TextInfo, cfg: Config, mode: AnimationMode, loopCount: int, k: nat)
    requires Fits(info, Shape(buf)) && Disjoint(info)
    requires k < info.characterCount && info.characterInfo[k].isVisible
    ensures InBounds(info.characterInfo[k], Shape(buf))
    ensures var e := info.characterInfo[k];
      QuadAt(ApplyEdits(buf, info, WaveEdits(info, cfg, mode, loopCount), info.characterCount),
             e.materialReferenceIndex, e.vertexIndex)
      == Translate(QuadAt(buf, e.materialReferenceIndex, e.vertexIndex), WaveOffset(cfg, mode, loopCount, k))
    ensures -Abs(cfg.maxWaveHeight) <= WaveOffset(cfg, mode, loopCount, k).y <= Abs(cfg.maxWaveHeight)
  {
    ApplyEditsAt(buf, info, WaveEdits(info, cfg, mode, loopCount), info.characterCount, k);
    SwingBounded(cfg.maxWaveHeight, WavePhase(cfg, mode, loopCount, k));
  }

  /** Outside Wave mode (UpAndDown) every visible glyph moves by the same offset. */
  lemma UpAndDownMovesInUnison(buf: seq<seq<Vec3>>, info: TextInfo, cfg: Config, mode: AnimationMode, loopCount: int, k: nat)
    requires mode != Wave
    requires Fits(info, Shape(buf)) && Disjoint(info)
    requires k < info.characterCount && info.characterInfo[k].isVisible
    ensures InBounds(info.characterInfo[k], Shape(buf))
    ensures var e := info.characterInfo[k];
      QuadAt(ApplyEdits(buf, info, WaveEdits(info, cfg, mode, loopCount), info.characterCount),
             e.materialReferenceIndex, e.vertexIndex)
      == Translate(QuadAt(buf, e.materialReferenceIndex, e.vertexIndex), WaveOffset(cfg, mode, loopCount, 0))
  {
    WaveTickMovesGlyph(buf, info, cfg, mode, loopCount, k);
    assert WavePhase(cfg, mode, loopCount, k) == WavePhase(cfg, mode, loopCount, 0);
  }

  /** Wave writes into the live buffer, so two ticks add up: the glyph ends where the
      sum of both ticks' offsets takes it. */
  lemma WaveTicksAccumulate(buf: seq<seq<Vec3>>, info: TextInfo, cfg: Config, mode: AnimationMode, loopCount: int, k: nat)
    requires Fits(info, Shape(buf)) && Disjoint(info)
    requires k < info.characterCount && info.characterInfo[k].isVisible
    ensures InBounds(info.characterInfo[k], Shape(buf))
    ensures var once := ApplyEdits(buf, info, WaveEdits(info, cfg, mode, loopCount), info.characterCount);
      var twice := ApplyEdits(once, info, WaveEdits(info, cfg, mode, loopCount + 1), info.characterCount);
      var e := info.characterInfo[k];
      QuadAt(twice, e.materialReferenceIndex, e.vertexIndex)
      == Translate(QuadAt(buf, e.materialReferenceIndex, e.vertexIndex),
                   Vec3(0.0, WaveHeight(cfg, mode, loopCount, k) + WaveHeight(cfg, mode, loopCount + 1, k), 0.0))
  {
    var once := ApplyEdits(buf, info, WaveEdits(info, cfg, mode, loopCount), info.characterCount);
    WaveTickMovesGlyph(buf, info, cfg, mode, loopCount, k);
    WaveTickMovesGlyph(once, info, cfg, mode, loopCount + 1, k);
  }

  /** With the default tunables (height 3, speed 3, multiplier 1) at tick 0, the second
      glyph of a Wave is already off the first glyph's height, while UpAndDown keeps them level. */
  lemma WaveAtTickZero(cfg: Config)
    requires cfg.maxWaveHeight == 3.0 && cfg.maxWaveSpeed == 3.0 && cfg.speedMultiplier == 1.0
    ensures WaveHeight(cfg, Wave, 0, 0) == -3.0
    ensures WaveHeight(cfg, Wave, 0, 1) != WaveHeight(cfg, Wave, 0, 0)
    ensures WaveHeight(cfg, UpAndDown, 0, 1) == WaveHeight(cfg, UpAndDown, 0, 0)
  {
    assert PingPong(0.0, 1.0) == 0.0 by {
      assert (0.0 / 2.0).Floor == 0;
    }
    assert PingPong(0.12, 1.0) == 0.12 by {
      assert (0.12 / 2.0).Floor == 0;
    }
    assert 1 as real / PhaseTicks * 3.0 * 1.0 == 0.12;
  }

  // ---------------------------------------------------------------------
  // Jitter / JitterTogether
  // ---------------------------------------------------------------------

  /** The three random values of one Jitter step: x and y translation, twist. */
  datatype JitterDraw = JitterDraw(dx: real, dy: real, twist: real)

  predicate JitterDrawInRange(cfg: Config, d: JitterDraw)
  {
    Between(d.dx, -cfg.jitterDistance, cfg.jitterDistance) &&
    Between(d.dy, -cfg.jitterDistance, cfg.jitterDistance) &&
    Between(d.twist, -cfg.jitterTwist, cfg.jitterTwist)
  }

  /** In Jitter mode each visible glyph uses its own draw; in any other mode the
      draw made once at the top of the tick is used by every glyph. */
  function JitterDrawFor(mode: AnimationMode, shared: JitterDraw, perGlyph: seq<JitterDraw>, i: nat): JitterDraw
    requires i < |perGlyph|
  {
    if mode == Jitter then perGlyph[i] else shared
  }

  /** TRS(jitterOffset * CurveScale, Euler(0, 0, twist * AngleMultiplier), one * SizeMultiplier). */
  function JitterMotion(cfg: Config, d: JitterDraw): Motion
  {
    Motion(Scale(cfg.curveScale, Vec3(d.dx, d.dy, 0.0)), d.twist * cfg.angleMultiplier, cfg.sizeMultiplier)
  }

  /** Midpoint of the bottom-left and top-right corners; the Vector2 conversion drops z. */
  function MidPivot(q: Quad): Vec3
  {
    Vec3((q.bl.x + q.tr.x) / 2.0, (q.bl.y + q.tr.y) / 2.0, 0.0)
  }

  /** The quad Jitter writes for a glyph whose cached quad is `src`. */
  function JitterQuad(trig: Trig, cfg: Config, d: JitterDraw, src: Quad): Quad
  {
    TransformAbout(trig, JitterMotion(cfg, d), MidPivot(src), src)
  }

  /** One Jitter tick: every visible glyph's quad is recomputed from the snapshot `src`. */
  function JitterEdits(info: TextInfo, src: seq<seq<Vec3>>, cfg: Config, trig: Trig, mode: AnimationMode,
                       shared: JitterDraw, perGlyph: seq<JitterDraw>): (r: seq<Edit>)
    requires Fits(info, Shape(src)) && |perGlyph| == info.characterCount
    ensures |r| == info.characterCount
  {
    seq(info.characterCount, i requires 0 <= i < info.characterCount =>
      var e := info.characterInfo[i];
      if e.isVisible then
        assert InBounds(e, Shape(src));
        Replace(JitterQuad(trig, cfg, JitterDrawFor(mode, shared, perGlyph, i),
                           QuadAt(src, e.materialReferenceIndex, e.vertexIndex)))
      else Keep)
  }

  /** Snapshot isolation for Jitter: after a tick, a visible glyph's quad is
      pivot + T(source - pivot) of its cached quad, whatever the live buffer held before. */
  lemma JitterTickFromSnapshot(live: seq<seq<Vec3>>, src: seq<seq<Vec3>>, info: TextInfo, cfg: Config, trig: Trig,
                               mode: AnimationMode, shared: JitterDraw, perGlyph: seq<JitterDraw>, n: nat, k: nat)
    requires Shape(src) == Shape(live) && Fits(info, Shape(live)) && Disjoint(info)
    requires |perGlyph| == info.characterCount && n <= info.characterCount
    requires k < n && info.characterInfo[k].isVisible
    ensures InBounds(info.characterInfo[k], Shape(live))
    ensures var e := info.characterInfo[k];
      var s := QuadAt(src, e.materialReferenceIndex, e.vertexIndex);
      QuadAt(ApplyEdits(live, info, JitterEdits(info, src, cfg, trig, mode, shared, perGlyph), n),
             e.materialReferenceIndex, e.vertexIndex)
      == TransformAbout(trig, JitterMotion(cfg, JitterDrawFor(mode, shared, perGlyph, k)), MidPivot(s), s)
  {
    ApplyEditsAt(live, info, JitterEdits(info, src, cfg, trig, mode, shared, perGlyph), n, k);
  }

  /** Consequently the previous tick's output does not matter: two different live
      buffers give the same quad for every visible glyph the tick reaches. */
  lemma JitterIgnoresPreviousTick(live1: seq<seq<Vec3>>, live2: seq<seq<Vec3>>, src: seq<seq<Vec3>>, info: TextInfo,
                                  cfg: Config, trig: Trig, mode: AnimationMode, shared: JitterDraw,
                                  perGlyph: seq<JitterDraw>, n: nat, k: nat)
    requires Shape(src) == Shape(live1) && Shape(src) == Shape(live2) && Fits(info, Shape(src)) && Disjoint(info)
    requires |perGlyph| == info.characterCount && n <= info.characterCount
    requires k < n && info.characterInfo[k].isVisible
    ensures InBounds(info.characterInfo[k], Shape(src))
    ensures var e := info.characterInfo[k];
      var edits := JitterEdits(info, src, cfg, trig, mode, shared, perGlyph);
      QuadAt(ApplyEdits(live1, info, edits, n), e.materialReferenceIndex, e.vertexIndex)
      == QuadAt(ApplyEdits(live2, info, edits, n), e.materialReferenceIndex, e.vertexIndex)
  {
    JitterTickFromSnapshot(live1, src, info, cfg, trig, mode, shared, perGlyph, n, k);
    JitterTickFromSnapshot(live2, src, info, cfg, trig, mode, shared, perGlyph, n, k);
  }

  /** JitterTogether: two visible glyphs whose cached corners sit the same way around
      their midpoints are moved alike, so they still do after the tick. */
  lemma JitterTogetherMovesInConcert(live: seq<seq<Vec3>>, src: seq<seq<Vec3>>, info: TextInfo, cfg: Config, trig: Trig,
                                     mode: AnimationMode, shared: JitterDraw, perGlyph: seq<JitterDraw>, n: nat, j: nat, k: nat)
    requires mode != Jitter
    requires Shape(src) == Shape(live) && Fits(info, Shape(live)) && Disjoint(info)
    requires |perGlyph| == info.characterCount && n <= info.characterCount
    requires j < n && info.characterInfo[j].isVisible && k < n && info.characterInfo[k].isVisible
    requires InBounds(info.characterInfo[j], Shape(src)) && InBounds(info.characterInfo[k], Shape(src))
    requires var ej, ek := info.characterInfo[j], info.characterInfo[k];
      var sj, sk := QuadAt(src, ej.materialReferenceIndex, ej.vertexIndex), QuadAt(src, ek.materialReferenceIndex, ek.vertexIndex);
      Relative(sj, MidPivot(sj)) == Relative(sk, MidPivot(sk))
    ensures var ej, ek := info.characterInfo[j], info.characterInfo[k];
      var sj, sk := QuadAt(src, ej.materialReferenceIndex, ej.vertexIndex), QuadAt(src, ek.materialReferenceIndex, ek.vertexIndex);
      var out := ApplyEdits(live, info, JitterEdits(info, src, cfg, trig, mode, shared, perGlyph), n);
      Relative(QuadAt(out, ej.materialReferenceIndex, ej.vertexIndex), MidPivot(sj))
      == Relative(QuadAt(out, ek.materialReferenceIndex, ek.vertexIndex), MidPivot(sk))
  {
    var ej, ek := info.characterInfo[j], info.characterInfo[k];
    var sj, sk := QuadAt(src, ej.materialReferenceIndex, ej.vertexIndex), QuadAt(src, ek.materialReferenceIndex, ek.vertexIndex);
    JitterTickFromSnapshot(live, src, info, cfg, trig, mode, shared, perGlyph, n, j);
    JitterTickFromSnapshot(live, src, info, cfg, trig, mode, shared, perGlyph, n, k);
    TransformAboutRelative(trig, JitterMotion(cfg, shared), MidPivot(sj), sj, MidPivot(sk), sk);
  }

  /** A draw of no translation and no twist, with unit size, leaves the glyph on its snapshot. */
  lemma JitterStillDrawKeepsSnapshot(trig: Trig, cfg: Config, src: Quad)
    requires cfg.sizeMultiplier == 1.0 && trig.cosDeg(0.0) == 1.0 && trig.sinDeg(0.0) == 0.0
    ensures JitterQuad(trig, cfg, JitterDraw(0.0, 0.0, 0.0), src) == src
  {
    TransformAboutIdentity(trig, JitterMotion(cfg, JitterDraw(0.0, 0.0, 0.0)), MidPivot(src), src);
  }

  // ---------------------------------------------------------------------
  // Dangle / DangleTogether
  // ---------------------------------------------------------------------

  /** Top-centre of a glyph: mid-x of the bottom-left and top-right corners, at the
      character's topRight.y; z is dropped by the Vector2. */
  function TopCenterPivot(q: Quad, topY: real): Vec3
  {
    Vec3((q.bl.x + q.tr.x) / 2.0, topY, 0.0)
  }

  /** `dangleAngle` of glyph `i`: its own slot and phase offset in Dangle mode, one
      shared swing from maxDangleAngle / maxDangleSpeed otherwise. */
  function DangleAngle(cfg: Config, mode: AnimationMode, slot: JitterAnim, loopCount: int, i: int): real
  {
    if mode == Dangle then
      Swing(slot.angleRange, (loopCount + i) as real / PhaseTicks * slot.speed * cfg.speedMultiplier)
    else
      Swing(cfg.maxDangleAngle, loopCount as real / PhaseTicks * cfg.maxDangleSpeed * cfg.speedMultiplier)
  }

  /** TRS(zero, Euler(0, 0, angle * AngleMultiplier), one * SizeMultiplier). */
  function DangleMotion(cfg: Config, angle: real): Motion
  {
    Motion(Origin, angle * cfg.angleMultiplier, cfg.sizeMultiplier)
  }

  /** The quad Dangle writes for a glyph whose cached quad is `src`. */
  function DangleQuad(trig: Trig, cfg: Config, angle: real, src: Quad, topY: real): Quad
  {
    TransformAbout(trig, DangleMotion(cfg, angle), TopCenterPivot(src, topY), src)
  }

  /** One Dangle tick: every visible glyph with a slot is recomputed from the snapshot `src`. */
  function DangleEdits(info: TextInfo, src: seq<seq<Vec3>>, cfg: Config, trig: Trig, mode: AnimationMode,
                       slots: seq<JitterAnim>, loopCount: int): (r: seq<Edit>)
    requires Fits(info, Shape(src))
    ensures |r| == info.characterCount
  {
    seq(info.characterCount, i requires 0 <= i < info.characterCount =>
      var e := info.characterInfo[i];
      if e.isVisible && i < |slots| then
        assert InBounds(e, Shape(src));
        Replace(DangleQuad(trig, cfg, DangleAngle(cfg, mode, slots[i], loopCount, i),
                           QuadAt(src, e.materialReferenceIndex, e.vertexIndex), e.topRightY))
      else Keep)
  }

  /** The table once the Dangle loop has handled characters 0 .. n-1: in Dangle mode each
      visible glyph's slot records the angle it swung to; DangleTogether leaves the table alone. */
  function SwungSlots(slots: seq<JitterAnim>, info: TextInfo, cfg: Config, mode: AnimationMode, loopCount: int, n: nat): (r: seq<JitterAnim>)
    requires n <= info.characterCount <= |info.characterInfo|
    ensures |r| == |slots|
    ensures forall k :: 0 <= k < |slots| ==> r[k].angleRange == slots[k].angleRange && r[k].speed == slots[k].speed
    ensures mode != Dangle ==> r == slots
  {
    seq(|slots|, k requires 0 <= k < |slots| =>
      if mode == Dangle && k < n && info.characterInfo[k].isVisible
      then slots[k].(angle := DangleAngle(cfg, mode, slots[k], loopCount, k))
      else slots[k])
  }

  /** One more character handled: in Dangle mode a visible character with a slot has its
      slot's angle set; otherwise the table is as it was. */
  lemma SwungSlotsNext(slots: seq<JitterAnim>, info: TextInfo, cfg: Config, mode: AnimationMode, loopCount: int, n: nat)
    requires n < info.characterCount <= |info.characterInfo|
    ensures SwungSlots(slots, info, cfg, mode, loopCount, n + 1) ==
      if mode == Dangle && n < |slots| && info.characterInfo[n].isVisible
      then SwungSlots(slots, info, cfg, mode, loopCount, n)[n := slots[n].(angle := DangleAngle(cfg, mode, slots[n], loopCount, n))]
      else SwungSlots(slots, info, cfg, mode, loopCount, n)
  {
  }

  /** The table has no slot past its 32nd, so stopping the loop at a character beyond the
      table leaves the same table as running it to the end. */
  lemma SwungSlotsPastTable(slots: seq<JitterAnim>, info: TextInfo, cfg: Config, mode: AnimationMode, loopCount: int, n: nat)
    requires |slots| <= n <= info.characterCount <= |info.characterInfo|
    ensures SwungSlots(slots, info, cfg, mode, loopCount, n) == SwungSlots(slots, info, cfg, mode, loopCount, info.characterCount)
  {
  }

  /** The buffers after the Dangle character loop: every visible glyph before the first one
      past the table is swung from the snapshot; that one, if there is one, is left moved to
      its top-centre, because its slot read throws after that write and before the rest. */
  function DangledBuffers(live: seq<seq<Vec3>>, info: TextInfo, src: seq<seq<Vec3>>, cfg: Config, trig: Trig,
                          mode: AnimationMode, slots: seq<JitterAnim>, loopCount: int): (r: seq<seq<Vec3>>)
    requires Fits(info, Shape(live)) && Shape(src) == Shape(live)
    ensures Shape(r) == Shape(live)
  {
    var stop := FirstOverflow(info);
    var done := ApplyEdits(live, info, DangleEdits(info, src, cfg, trig, mode, slots, loopCount), stop);
    if stop < info.characterCount then
      var e := info.characterInfo[stop];
      assert InBounds(e, Shape(src));
      var s := QuadAt(src, e.materialReferenceIndex, e.vertexIndex);
      WithQuad(done, e.materialReferenceIndex, e.vertexIndex, Relative(s, TopCenterPivot(s, e.topRightY)))
    else done
  }

  /** A Dangle loop that ran to the end produced exactly the snapshot-based swing of every glyph. */
  lemma DangledBuffersComplete(live: seq<seq<Vec3>>, info: TextInfo, src: seq<seq<Vec3>>, cfg: Config, trig: Trig,
                               mode: AnimationMode, slots: seq<JitterAnim>, loopCount: int)
    requires Fits(info, Shape(live)) && Shape(src) == Shape(live)
    requires FirstOverflow(info) == info.characterCount
    ensures DangledBuffers(live, info, src, cfg, trig, mode, slots, loopCount)
            == ApplyEdits(live, info, DangleEdits(info, src, cfg, trig, mode, slots, loopCount), info.characterCount)
  {
  }

  /** A Dangle loop that stopped at visible character `n` past the table stopped at the
      first such character, after moving it to its top-centre. */
  lemma DangledBuffersStopped(live: seq<seq<Vec3>>, info: TextInfo, src: seq<seq<Vec3>>, cfg: Config, trig: Trig,
                              mode: AnimationMode, slots: seq<JitterAnim>, loopCount: int, n: nat)
    requires Fits(info, Shape(live)) && Shape(src) == Shape(live)
    requires MaxCharsToAnimate <= n <= FirstOverflow(info) && n < info.characterCount && info.characterInfo[n].isVisible
    ensures FirstOverflow(info) == n
    ensures InBounds(info.characterInfo[n], Shape(src))
    ensures var e := info.characterInfo[n];
      var s := QuadAt(src, e.materialReferenceIndex, e.vertexIndex);
      DangledBuffers(live, info, src, cfg, trig, mode, slots, loopCount)
      == WithQuad(ApplyEdits(live, info, DangleEdits(info, src, cfg, trig, mode, slots, loopCount), n),
                  e.materialReferenceIndex, e.vertexIndex, Relative(s, TopCenterPivot(s, e.topRightY)))
  {
    assert InBounds(info.characterInfo[n], Shape(src));
  }

  /** Snapshot isolation for Dangle: after a tick a visible glyph with a slot sits at
      pivot + R(source - pivot) about its top-centre, whatever the live buffer held. */
  lemma DangleTickFromSnapshot(live: seq<seq<Vec3>>, src: seq<seq<Vec3>>, info: TextInfo, cfg: Config, trig: Trig,
                               mode: AnimationMode, slots: seq<JitterAnim>, loopCount: int, n: nat, k: nat)
    requires Shape(src) == Shape(live) && Fits(info, Shape(live)) && Disjoint(info)
    requires n <= info.characterCount && k < n && k < |slots| && info.characterInfo[k].isVisible
    ensures InBounds(info.characterInfo[k], Shape(live))
    ensures var e := info.characterInfo[k];
      var s := QuadAt(src, e.materialReferenceIndex, e.vertexIndex);
      QuadAt(ApplyEdits(live, info, DangleEdits(info, src, cfg, trig, mode, slots, loopCount), n),
             e.materialReferenceIndex, e.vertexIndex)
      == TransformAbout(trig, DangleMotion(cfg, DangleAngle(cfg, mode, slots[k], loopCount, k)),
                        TopCenterPivot(s, e.topRightY), s)
  {
    ApplyEditsAt(live, info, DangleEdits(info, src, cfg, trig, mode, slots, loopCount), n, k);
  }

  /** Snapshot isolation for a whole Dangle loop, faulting or not: every visible glyph with a
      slot is its cached quad swung about its top-centre. A glyph past the table that stops
      the loop shares no vertex with it, so leaving that glyph at its top-centre does not
      disturb it. */
  lemma DangledBuffersFromSnapshot(live: seq<seq<Vec3>>, src: seq<seq<Vec3>>, info: TextInfo, cfg: Config, trig: Trig,
                                   mode: AnimationMode, slots: seq<JitterAnim>, loopCount: int, k: nat)
    requires Shape(src) == Shape(live) && Fits(info, Shape(live)) && Disjoint(info)
    requires |slots| <= MaxCharsToAnimate && k < |slots| && k < info.characterCount && info.characterInfo[k].isVisible
    ensures InBounds(info.characterInfo[k], Shape(live))
    ensures var e := info.characterInfo[k];
      var s := QuadAt(src, e.materialReferenceIndex, e.vertexIndex);
      QuadAt(DangledBuffers(live, info, src, cfg, trig, mode, slots, loopCount), e.materialReferenceIndex, e.vertexIndex)
      == TransformAbout(trig, DangleMotion(cfg, DangleAngle(cfg, mode, slots[k], loopCount, k)),
                        TopCenterPivot(s, e.topRightY), s)
  {
    var stop := FirstOverflow(info);
    var e := info.characterInfo[k];
    var m, v := e.materialReferenceIndex, e.vertexIndex;
    DangleTickFromSnapshot(live, src, info, cfg, trig, mode, slots, loopCount, stop, k);
    if stop < info.characterCount {
      var f := info.characterInfo[stop];
      assert InBounds(f, Shape(src));
      assert Apart(e, f);
      var done := ApplyEdits(live, info, DangleEdits(info, src, cfg, trig, mode, slots, loopCount), stop);
      var s := QuadAt(src, f.materialReferenceIndex, f.vertexIndex);
      var q := Relative(s, TopCenterPivot(s, f.topRightY));
      WithQuadElsewhere(done, f.materialReferenceIndex, f.vertexIndex, q, m, v);
      WithQuadElsewhere(done, f.materialReferenceIndex, f.vertexIndex, q, m, v + 1);
      WithQuadElsewhere(done, f.materialReferenceIndex, f.vertexIndex, q, m, v + 2);
      WithQuadElsewhere(done, f.materialReferenceIndex, f.vertexIndex, q, m, v + 3);
    }
  }

  /** DangleTogether: every glyph swings by one angle about its own top-centre, so glyphs
      that hang the same way from their pivots still do after the tick. */
  lemma DangleTogetherSwingsInConcert(live: seq<seq<Vec3>>, src: seq<seq<Vec3>>, info: TextInfo, cfg: Config, trig: Trig,
                                      mode: AnimationMode, slots: seq<JitterAnim>, loopCount: int, n: nat, j: nat, k: nat)
    requires mode != Dangle
    requires Shape(src) == Shape(live) && Fits(info, Shape(live)) && Disjoint(info)
    requires n <= info.characterCount && j < n && k < n && j < |slots| && k < |slots|
    requires info.characterInfo[j].isVisible && info.characterInfo[k].isVisible
    requires InBounds(info.characterInfo[j], Shape(src)) && InBounds(info.characterInfo[k], Shape(src))
    requires var ej, ek := info.characterInfo[j], info.characterInfo[k];
      var sj, sk := QuadAt(src, ej.materialReferenceIndex, ej.vertexIndex), QuadAt(src, ek.materialReferenceIndex, ek.vertexIndex);
      Relative(sj, TopCenterPivot(sj, ej.topRightY)) == Relative(sk, TopCenterPivot(sk, ek.topRightY))
    ensures var ej, ek := info.characterInfo[j], info.characterInfo[k];
      var sj, sk := QuadAt(src, ej.materialReferenceIndex, ej.vertexIndex), QuadAt(src, ek.materialReferenceIndex, ek.vertexIndex);
      var out := ApplyEdits(live, info, DangleEdits(info, src, cfg, trig, mode, slots, loopCount), n);
      Relative(QuadAt(out, ej.materialReferenceIndex, ej.vertexIndex), TopCenterPivot(sj, ej.topRightY))
      == Relative(QuadAt(out, ek.materialReferenceIndex, ek.vertexIndex), TopCenterPivot(sk, ek.topRightY))
  {
    var ej, ek := info.characterInfo[j], info.characterInfo[k];
    var sj, sk := QuadAt(src, ej.materialReferenceIndex, ej.vertexIndex), QuadAt(src, ek.materialReferenceIndex, ek.vertexIndex);
    DangleTickFromSnapshot(live, src, info, cfg, trig, mode, slots, loopCount, n, j);
    DangleTickFromSnapshot(live, src, info, cfg, trig, mode, slots, loopCount, n, k);
    assert DangleAngle(cfg, mode, slots[j], loopCount, j) == DangleAngle(cfg, mode, slots[k], loopCount, k);
    TransformAboutRelative(trig, DangleMotion(cfg, DangleAngle(cfg, mode, slots[j], loopCount, j)),
                           TopCenterPivot(sj, ej.topRightY), sj, TopCenterPivot(sk, ek.topRightY), sk);
  }
}
