/** The TextAnimation component: the mode state machine, the per-character table set up
    when a transform starts, and one iteration of each of the four animation coroutines,
    each writing the text object's vertex or colour buffers in place. */
module Animator {
  import opened Geometry
  import opened Glyphs
  import opened Effects

  /** How one resumption of a coroutine ends. */
  datatype Outcome =
    | Stopped   // `yield break`: the coroutine is over
    | Waiting   // no characters yet: it waits 0.25 s and looks again
    | Advanced  // one iteration done: it waits 0.05 s (colour) or 0.1 s (positions)
    | Faulted   // an index past the end of an array threw, which ends the coroutine

  /** The three channels of one ChangeColor step, each from `(byte)Random.Range(0, 255)`. */
  datatype ColorDraw = ColorDraw(r: byte, g: byte, b: byte)

  /** The integer Random.Range excludes its upper bound, so no channel is ever 255. */
  predicate ColorDrawInRange(d: ColorDraw)
  {
    d.r < 255 && d.g < 255 && d.b < 255
  }

  /** The start-up loops: slot k gets the k-th angle range and speed; `angle` keeps its value. */
  method FillSlots(a: array<JitterAnim>, draws: seq<SlotDraw>)
    requires a.Length == |draws|
    modifies a
    ensures forall k :: 0 <= k < a.Length ==>
      a[k] == old(a[k]).(angleRange := draws[k].angleRange, speed := draws[k].speed)
  {
    for k := 0 to a.Length
      invariant forall j :: 0 <= j < k ==>
        a[j] == old(a[j]).(angleRange := draws[j].angleRange, speed := draws[j].speed)
      invariant forall j :: k <= j < a.Length ==> a[j] == old(a[j])
    {
      a[k] := a[k].(angleRange := draws[k].angleRange, speed := draws[k].speed);
    }
  }

  /** Jitter's table: each slot its own draw, or (JitterTogether) one draw in every slot. */
  method JitterTable(independent: bool, draws: seq<SlotDraw>) returns (table: array<JitterAnim>)
    requires |draws| == MaxCharsToAnimate
    ensures fresh(table)
    ensures table[..] == if independent then IndependentSlots(draws) else SharedSlots(draws[0])
  {
    table := new JitterAnim[MaxCharsToAnimate](_ => BlankSlot);
    if independent {
      FillSlots(table, draws);
      assert table[..] == IndependentSlots(draws);
    } else {
      FillSlots(table, seq(MaxCharsToAnimate, _ => draws[0]));
      assert table[..] == SharedSlots(draws[0]);
    }
  }

  /** Dangle's table: each slot its own draw in Dangle mode; left blank for DangleTogether. */
  method DangleTable(independent: bool, draws: seq<SlotDraw>) returns (table: array<JitterAnim>)
    requires |draws| == MaxCharsToAnimate
    ensures fresh(table)
    ensures table[..] == if independent then IndependentSlots(draws) else BlankSlots()
  {
    table := new JitterAnim[MaxCharsToAnimate](_ => BlankSlot);
    if independent {
      FillSlots(table, draws);
      assert table[..] == IndependentSlots(draws);
    } else {
      assert table[..] == BlankSlots();
    }
  }

  class TextAnimation {
    /** MeshAnimationMode. */
    var mode: AnimationMode
    var hasTextChanged: bool
    /** cachedMeshInfo: the copy of the vertex buffers the positional transforms read. */
    var cached: seq<seq<Vec3>>
    /** textInfo.meshInfo[m].vertices and textInfo.meshInfo[m].colors32, one per material. */
    const vertices: seq<array<Vec3>>
    const colors: seq<array<Color32>>
    /** vertexAnim, the table of the running Jitter or Dangle coroutine. */
    var vertexAnim: array<JitterAnim>
    /** The tick counter of the running positional coroutine. */
    var loopCount: nat
    /** The ChangeColor cursor. */
    var currentCharacter: nat
    /** Which coroutine is alive. */
    var running: Routine

    ghost predicate Valid()
      reads this
    {
      |colors| == |vertices| &&
      (forall m :: 0 <= m < |vertices| ==> colors[m].Length == vertices[m].Length) &&
      (forall m, n :: 0 <= m < |vertices| && 0 <= n < |vertices| && m != n ==> vertices[m] != vertices[n]) &&
      (forall m, n :: 0 <= m < |colors| && 0 <= n < |colors| && m != n ==> colors[m] != colors[n]) &&
      vertexAnim.Length == MaxCharsToAnimate &&
      (running == WaveLoop || running == JitterLoop || running == DangleLoop ==> Shape(cached) == Lengths())
    }

    /** The coroutine alive, if any, is the one the current mode dispatches to. */
    ghost predicate Coherent()
      reads this
    {
      running == Idle || running == RoutineFor(mode)
    }

    /** The length of each material's vertex buffer. */
    function Lengths(): (r: seq<nat>)
      ensures |r| == |vertices| && forall m :: 0 <= m < |vertices| ==> r[m] == vertices[m].Length
    {
      seq(|vertices|, m requires 0 <= m < |vertices| => vertices[m].Length)
    }

    /** The contents of the live vertex buffers. */
    function Live(): (r: seq<seq<Vec3>>)
      reads vertices
      ensures |r| == |vertices| && forall m :: 0 <= m < |vertices| ==> r[m] == vertices[m][..]
      ensures Shape(r) == Lengths()
    {
      seq(|vertices|, m requires 0 <= m < |vertices| reads vertices => vertices[m][..])
    }

    /** The contents of the live colour buffers. */
    function Colors(): (r: seq<seq<Color32>>)
      reads colors
      ensures |r| == |colors| && forall m :: 0 <= m < |colors| ==> r[m] == colors[m][..]
    {
      seq(|colors|, m requires 0 <= m < |colors| reads colors => colors[m][..])
    }

    /** A new component over the text object's buffers; no coroutine runs yet. */
    constructor (initial: AnimationMode, meshVertices: seq<array<Vec3>>, meshColors: seq<array<Color32>>)
      requires |meshColors| == |meshVertices|
      requires forall m :: 0 <= m < |meshVertices| ==> meshColors[m].Length == meshVertices[m].Length
      requires forall m, n :: 0 <= m < |meshVertices| && 0 <= n < |meshVertices| && m != n ==> meshVertices[m] != meshVertices[n]
      requires forall m, n :: 0 <= m < |meshColors| && 0 <= n < |meshColors| && m != n ==> meshColors[m] != meshColors[n]
      ensures Valid() && Coherent()
      ensures vertices == meshVertices && colors == meshColors
      ensures mode == initial && !hasTextChanged && running == Idle
      ensures cached == [] && loopCount == 0 && currentCharacter == 0
    {
      vertices := meshVertices;
      colors := meshColors;
      mode := initial;
      hasTextChanged := false;
      cached := [];
      vertexAnim := new JitterAnim[MaxCharsToAnimate](_ => BlankSlot);
      loopCount := 0;
      currentCharacter := 0;
      running := Idle;
    }

    // -------------------------------------------------------------------
    // Mode controller
    // -------------------------------------------------------------------

    /** What StartAnimation leaves behind: the mode's coroutine is alive and has run its
        prelude. Positional coroutines restart the tick counter, force a snapshot refresh
        and copy the buffers; Jitter and Dangle own a fresh table. */
    twostate predicate Restarted(draws: seq<SlotDraw>)
      requires |draws| == MaxCharsToAnimate
      reads this, vertices, vertexAnim
    {
      running == RoutineFor(mode) &&
      (running == ColorLoop ==> currentCharacter == 0) &&
      (running != ColorLoop ==> currentCharacter == old(currentCharacter)) &&
      (running == WaveLoop || running == JitterLoop || running == DangleLoop ==>
         loopCount == 0 && hasTextChanged && cached == Live()) &&
      (running == Idle || running == ColorLoop ==>
         loopCount == old(loopCount) && hasTextChanged == old(hasTextChanged) && cached == old(cached)) &&
      (running == JitterLoop ==>
         fresh(vertexAnim) &&
         vertexAnim[..] == if mode == Jitter then IndependentSlots(draws) else SharedSlots(draws[0])) &&
      (running == DangleLoop ==>
         fresh(vertexAnim) &&
         vertexAnim[..] == if mode == Dangle then IndependentSlots(draws) else BlankSlots()) &&
      (running == Idle || running == ColorLoop || running == WaveLoop ==> vertexAnim == old(vertexAnim))
    }

    /** Stops whatever runs and starts the coroutine of the current mode, up to its first
        iteration. `draws` are the start-up Random.Range pairs. */
    method StartAnimation(cfg: Config, draws: seq<SlotDraw>)
      requires Valid() && |draws| == MaxCharsToAnimate
      requires forall k :: 0 <= k < |draws| ==> SlotDrawInRange(mode, cfg, draws[k])
      modifies this
      ensures Valid() && Coherent() && Restarted(draws)
      ensures mode == old(mode)
    {
      running := RoutineFor(mode);
      match running
      case Idle =>
      case ColorLoop =>
        currentCharacter := 0;
      case WaveLoop =>
        loopCount := 0;
        hasTextChanged := true;
        cached := Live();
      case JitterLoop =>
        loopCount := 0;
        hasTextChanged := true;
        vertexAnim := JitterTable(mode == Jitter, draws);
        cached := Live();
      case DangleLoop =>
        loopCount := 0;
        hasTextChanged := true;
        vertexAnim := DangleTable(mode == Dangle, draws);
        cached := Live();
    }

    /** Asking for the current mode changes nothing; any other mode is set and started. */
    method SetAnimationMode(animMode: AnimationMode, cfg: Config, draws: seq<SlotDraw>) returns (r: AnimationMode)
      requires Valid() && |draws| == MaxCharsToAnimate
      requires forall k :: 0 <= k < |draws| ==> SlotDrawInRange(animMode, cfg, draws[k])
      modifies this
      ensures Valid() && r == animMode && mode == animMode
      ensures animMode == old(mode) ==> unchanged(this)
      ensures animMode != old(mode) ==> Coherent() && Restarted(draws)
    {
      if animMode != mode {
        mode := animMode;
        StartAnimation(cfg, draws);
      }
      r := mode;
    }

    method StopAnimation()
      requires Valid()
      modifies this`mode, this`running
      ensures Valid() && Coherent()
      ensures mode == None && running == Idle
    {
      mode := None;
      running := Idle;
    }

    method GetAnimationMode() returns (r: AnimationMode)
      ensures r == mode
    {
      r := mode;
    }

    /** Asks the running positional coroutine to re-copy the buffers on its next iteration. */
    method NotifyTextHasChanged()
      requires Valid()
      modifies this`hasTextChanged
      ensures Valid() && hasTextChanged
    {
      hasTextChanged := true;
    }

    // -------------------------------------------------------------------
    // In-place writes shared by the ticks
    // -------------------------------------------------------------------

    /** The four assignments to `destinationVertices[vertexIndex + 0 .. 3]`. */
    method StoreQuad(m: nat, v: nat, q: Quad)
      requires Valid() && m < |vertices| && v + 4 <= vertices[m].Length
      modifies vertices[m]
      ensures Live() == WithQuad(old(Live()), m, v, q)
    {
      var dest := vertices[m];
      dest[v] := q.bl;
      dest[v + 1] := q.tl;
      dest[v + 2] := q.tr;
      dest[v + 3] := q.br;
      assert dest[..] == old(dest[..])[v := q.bl][v + 1 := q.tl][v + 2 := q.tr][v + 3 := q.br];
      assert forall n :: 0 <= n < |vertices| && n != m ==> vertices[n][..] == old(vertices[n][..]);
    }

    /** `destinationVertices[vertexIndex + k] += offset` for k = 0 .. 3. */
    method ShiftQuad(m: nat, v: nat, offset: Vec3)
      requires Valid() && m < |vertices| && v + 4 <= vertices[m].Length
      modifies vertices[m]
      ensures Live() == WithQuad(old(Live()), m, v, Translate(QuadAt(old(Live()), m, v), offset))
    {
      var dest := vertices[m];
      StoreQuad(m, v, Translate(Quad(dest[v], dest[v + 1], dest[v + 2], dest[v + 3]), offset));
    }

    /** The last two passes of Jitter and Dangle over one glyph: MultiplyPoint3x4 on each
        vertex in place, then `+= offset` to move it back from the pivot. */
    method TransformQuad(m: nat, v: nat, trig: Trig, motion: Motion, pivot: Vec3)
      requires Valid() && m < |vertices| && v + 4 <= vertices[m].Length
      modifies vertices[m]
      ensures Live() == WithQuad(old(Live()), m, v, Translate(MoveQuad(trig, motion, QuadAt(old(Live()), m, v)), pivot))
    {
      var dest := vertices[m];
      ghost var before := Live();
      var moved := MoveQuad(trig, motion, Quad(dest[v], dest[v + 1], dest[v + 2], dest[v + 3]));
      StoreQuad(m, v, moved);
      StoreQuad(m, v, Translate(Quad(dest[v], dest[v + 1], dest[v + 2], dest[v + 3]), pivot));
      WithQuadTwice(before, m, v, moved, Translate(moved, pivot));
    }

    /** The four assignments to `newVertexColors[vertexIndex + 0 .. 3]`. */
    method StoreColor(m: nat, v: nat, c: Color32)
      requires Valid() && m < |colors| && v + 4 <= colors[m].Length
      modifies colors[m]
      ensures Colors() == Paint(old(Colors()), m, v, c)
    {
      var dest := colors[m];
      dest[v] := c;
      dest[v + 1] := c;
      dest[v + 2] := c;
      dest[v + 3] := c;
      assert dest[..] == old(dest[..])[v := c][v + 1 := c][v + 2 := c][v + 3 := c];
      assert forall n :: 0 <= n < |colors| && n != m ==> colors[n][..] == old(colors[n][..]);
    }

    /** The top of every positional iteration: re-copy the buffers when the flag is set. */
    method RefreshSnapshot()
      requires Valid()
      modifies this`cached, this`hasTextChanged
      ensures Valid() && !hasTextChanged
      ensures cached == if old(hasTextChanged) then Live() else old(cached)
    {
      if hasTextChanged {
        cached := Live();
        hasTextChanged := false;
      }
    }

    // -------------------------------------------------------------------
    // One iteration of each coroutine
    // -------------------------------------------------------------------

    /** One iteration of AnimateVertexColors: give up when the mode has moved on, wait
        while there is no text, otherwise paint the cursor's glyph (if visible) one random
        opaque colour and move the cursor on, wrapping at the character count. */
    method ColorTick(info: TextInfo, draw: ColorDraw) returns (outcome: Outcome)
      requires Valid() && running == ColorLoop && Fits(info, Lengths()) && ColorDrawInRange(draw)
      // the cursor may sit on a stale entry past the count once the text has shrunk
      requires currentCharacter < |info.characterInfo| ==> InBounds(info.characterInfo[currentCharacter], Lengths())
      modifies this`running, this`currentCharacter, colors
      ensures Valid()
      ensures mode != ChangeColor ==>
        outcome == Stopped && running == Idle &&
        currentCharacter == old(currentCharacter) && Colors() == old(Colors())
      ensures mode == ChangeColor && info.characterCount == 0 ==>
        outcome == Waiting && running == ColorLoop &&
        currentCharacter == old(currentCharacter) && Colors() == old(Colors())
      ensures mode == ChangeColor && info.characterCount > 0 && old(currentCharacter) >= |info.characterInfo| ==>
        outcome == Faulted && running == Idle &&
        currentCharacter == old(currentCharacter) && Colors() == old(Colors())
      ensures mode == ChangeColor && info.characterCount > 0 && old(currentCharacter) < |info.characterInfo| ==>
        outcome == Advanced && running == ColorLoop &&
        currentCharacter == (old(currentCharacter) + 1) % info.characterCount &&
        currentCharacter < info.characterCount &&
        var e := info.characterInfo[old(currentCharacter)];
        Colors() == if e.isVisible
                    then Paint(old(Colors()), e.materialReferenceIndex, e.vertexIndex, Color32(draw.r, draw.g, draw.b, 255))
                    else old(Colors())
    {
      if mode != ChangeColor {
        running := Idle;
        return Stopped;
      }
      var characterCount := info.characterCount;
      if characterCount == 0 {
        return Waiting;
      }
      if currentCharacter >= |info.characterInfo| {
        running := Idle;
        return Faulted;
      }
      var e := info.characterInfo[currentCharacter];
      assert InBounds(e, Lengths());
      if e.isVisible {
        StoreColor(e.materialReferenceIndex, e.vertexIndex, Color32(draw.r, draw.g, draw.b, 255));
      }
      currentCharacter := (currentCharacter + 1) % characterCount;
      outcome := Advanced;
    }

    /** The character loop of a Wave iteration: each visible glyph's offset is added to
        its quad as the live buffer holds it. */
    method WaveGlyphs(info: TextInfo, cfg: Config)
      requires Valid() && Fits(info, Lengths())
      modifies vertices
      ensures Live() == ApplyEdits(old(Live()), info, WaveEdits(info, cfg, mode, loopCount), info.characterCount)
    {
      ghost var edits := WaveEdits(info, cfg, mode, loopCount);
      var i := 0;
      while i < info.characterCount
        invariant 0 <= i <= info.characterCount
        invariant Live() == ApplyEdits(old(Live()), info, edits, i)
      {
        var e := info.characterInfo[i];
        ApplyEditsNext(old(Live()), info, edits, i);
        if e.isVisible {
          ShiftQuad(e.materialReferenceIndex, e.vertexIndex, WaveOffset(cfg, mode, loopCount, i));
        }
        i := i + 1;
      }
    }

    /** One iteration of AnimateVertexPositionsWave: refresh the snapshot if asked, wait
        while there is no text, otherwise move every visible glyph by its vertical offset
        and count the tick. */
    method WaveTick(info: TextInfo, cfg: Config) returns (outcome: Outcome)
      requires Valid() && running == WaveLoop && Fits(info, Lengths())
      modifies this`cached, this`hasTextChanged, this`loopCount, vertices
      ensures Valid() && !hasTextChanged
      ensures cached == if old(hasTextChanged) then old(Live()) else old(cached)
      ensures Colors() == old(Colors())
      ensures info.characterCount == 0 ==>
        outcome == Waiting && Live() == old(Live()) && loopCount == old(loopCount)
      ensures info.characterCount > 0 ==>
        outcome == Advanced && loopCount == old(loopCount) + 1 &&
        Live() == ApplyEdits(old(Live()), info, WaveEdits(info, cfg, mode, old(loopCount)), info.characterCount)
    {
      RefreshSnapshot();
      if info.characterCount == 0 {
        return Waiting;
      }
      WaveGlyphs(info, cfg);
      loopCount := loopCount + 1;
      outcome := Advanced;
    }

    /** The Jitter loop's body for one visible character `e` with a slot: move its quad
        from the snapshot to its midpoint, transform it by `draw`, move it back. */
    method JitterGlyph(e: CharInfo, cfg: Config, trig: Trig, draw: JitterDraw)
      requires Valid() && InBounds(e, Lengths()) && e.isVisible && Shape(cached) == Lengths()
      modifies vertices
      ensures Live() == WithQuad(old(Live()), e.materialReferenceIndex, e.vertexIndex,
                                 JitterQuad(trig, cfg, draw, QuadAt(cached, e.materialReferenceIndex, e.vertexIndex)))
    {
      var m, v := e.materialReferenceIndex, e.vertexIndex;
      ghost var before := Live();
      var src := QuadAt(cached, m, v);
      var pivot := MidPivot(src);
      StoreQuad(m, v, Relative(src, pivot));
      TransformQuad(m, v, trig, JitterMotion(cfg, draw), pivot);
      WithQuadTwice(before, m, v, Relative(src, pivot), JitterQuad(trig, cfg, draw, src));
    }

    /** The Jitter loop handles character `i`, with characters 0 .. i-1 done: either one
        more character is done, or the slot read of the first glyph past the table throws
        before that glyph is touched. In Jitter mode each glyph takes its own draw,
        otherwise all take `shared`. */
    method JitterStep(info: TextInfo, i: nat, cfg: Config, trig: Trig, shared: JitterDraw, perGlyph: seq<JitterDraw>,
                      ghost live: seq<seq<Vec3>>)
      returns (faulted: bool)
      requires Valid() && Fits(info, Lengths()) && Shape(cached) == Lengths() && Shape(live) == Lengths()
      requires |perGlyph| == info.characterCount && i < info.characterCount && i <= FirstOverflow(info)
      requires Live() == ApplyEdits(live, info, JitterEdits(info, cached, cfg, trig, mode, shared, perGlyph), i)
      modifies vertices
      ensures faulted <==> FirstOverflow(info) == i
      ensures !faulted ==> Live() == ApplyEdits(live, info, JitterEdits(info, cached, cfg, trig, mode, shared, perGlyph), i + 1)
      ensures faulted ==> Live() == old(Live())
    {
      ghost var edits := JitterEdits(info, cached, cfg, trig, mode, shared, perGlyph);
      var e := info.characterInfo[i];
      ApplyEditsNext(live, info, edits, i);
      if e.isVisible {
        if i >= vertexAnim.Length {
          FirstOverflowAt(info, i);
          return true;
        }
        var draw := shared;
        if mode == Jitter {
          draw := perGlyph[i];
        }
        JitterGlyph(e, cfg, trig, draw);
      }
      return false;
    }

    /** The character loop of a Jitter iteration; it stops at the first visible character
        past the table, leaving that glyph and the ones after it as they were. */
    method JitterGlyphs(info: TextInfo, cfg: Config, trig: Trig, shared: JitterDraw, perGlyph: seq<JitterDraw>,
                        ghost live: seq<seq<Vec3>>)
      returns (faulted: bool)
      requires Valid() && Fits(info, Lengths()) && Shape(cached) == Lengths()
      requires |perGlyph| == info.characterCount && live == Live()
      modifies vertices
      ensures faulted <==> FirstOverflow(info) < info.characterCount
      ensures Live() == ApplyEdits(live, info, JitterEdits(info, cached, cfg, trig, mode, shared, perGlyph),
                                   FirstOverflow(info))
    {
      var i := 0;
      while i < info.characterCount
        invariant 0 <= i <= FirstOverflow(info)
        invariant Live() == ApplyEdits(live, info, JitterEdits(info, cached, cfg, trig, mode, shared, perGlyph), i)
      {
        var stopped := JitterStep(info, i, cfg, trig, shared, perGlyph, live);
        if stopped {
          return true;
        }
        i := i + 1;
      }
      return false;
    }

    /** A Jitter iteration once the snapshot is current and there is text: the character
        loop, then either the end of the coroutine or the next tick. */
    method JitterIteration(info: TextInfo, cfg: Config, trig: Trig, shared: JitterDraw, perGlyph: seq<JitterDraw>,
                           ghost live: seq<seq<Vec3>>)
      returns (outcome: Outcome)
      requires Valid() && running == JitterLoop && Fits(info, Lengths()) && info.characterCount > 0
      requires |perGlyph| == info.characterCount && live == Live()
      modifies this`loopCount, this`running, vertices
      ensures Valid() && Shape(cached) == Lengths()
      ensures Live() == ApplyEdits(live, info, JitterEdits(info, cached, cfg, trig, mode, shared, perGlyph), FirstOverflow(info))
      ensures if FirstOverflow(info) < info.characterCount
              then outcome == Faulted && running == Idle && loopCount == old(loopCount)
              else outcome == Advanced && running == JitterLoop && loopCount == old(loopCount) + 1
    {
      var faulted := JitterGlyphs(info, cfg, trig, shared, perGlyph, live);
      if faulted {
        running := Idle;
        outcome := Faulted;
      } else {
        loopCount := loopCount + 1;
        outcome := Advanced;
      }
    }

    /** One iteration of AnimateVertexPositionsJitter: refresh the snapshot if asked, wait
        while there is no text, otherwise rebuild every visible glyph from the snapshot and
        count the tick; a glyph past the table ends the coroutine instead. */
    method JitterTick(info: TextInfo, cfg: Config, trig: Trig, shared: JitterDraw, perGlyph: seq<JitterDraw>)
      returns (outcome: Outcome)
      requires Valid() && running == JitterLoop && Fits(info, Lengths())
      requires |perGlyph| == info.characterCount && JitterDrawInRange(cfg, shared)
      requires forall i :: 0 <= i < |perGlyph| ==> JitterDrawInRange(cfg, perGlyph[i])
      modifies this`cached, this`hasTextChanged, this`loopCount, this`running, vertices
      ensures Valid() && !hasTextChanged && Shape(cached) == Lengths()
      ensures cached == if old(hasTextChanged) then old(Live()) else old(cached)
      ensures Colors() == old(Colors())
      ensures info.characterCount == 0 ==>
        outcome == Waiting && running == JitterLoop && Live() == old(Live()) && loopCount == old(loopCount)
      ensures info.characterCount > 0 ==>
        var stop := FirstOverflow(info);
        Live() == ApplyEdits(old(Live()), info, JitterEdits(info, cached, cfg, trig, mode, shared, perGlyph), stop) &&
        if stop < info.characterCount
        then outcome == Faulted && running == Idle && loopCount == old(loopCount)
        else outcome == Advanced && running == JitterLoop && loopCount == old(loopCount) + 1
    {
      ghost var live := Live();
      RefreshSnapshot();
      if info.characterCount == 0 {
        return Waiting;
      }
      outcome := JitterIteration(info, cfg, trig, shared, perGlyph, live);
    }

    /** Dangle's angle for glyph `i` from its slot (or the shared swing), recorded back
        into the slot in Dangle mode. */
    method SwingSlot(cfg: Config, i: nat) returns (angle: real)
      requires Valid() && i < vertexAnim.Length
      modifies vertexAnim
      ensures angle == DangleAngle(cfg, mode, old(vertexAnim[i]), loopCount, i)
      ensures vertexAnim[..] == if mode == Dangle then old(vertexAnim[..])[i := old(vertexAnim[i]).(angle := angle)]
                                else old(vertexAnim[..])
    {
      var slot := vertexAnim[i];
      if mode == Dangle {
        slot := slot.(angle := DangleAngle(cfg, mode, slot, loopCount, i));
        angle := slot.angle;
        vertexAnim[i] := slot;
      } else {
        angle := DangleAngle(cfg, mode, slot, loopCount, i);
      }
    }

    /** The Dangle loop's body for one visible character `e` at index `i`: move its quad to
        its top-centre, read its slot (which throws past the table), swing it, move it back. */
    method DangleGlyph(e: CharInfo, i: nat, cfg: Config, trig: Trig) returns (faulted: bool)
      requires Valid() && InBounds(e, Lengths()) && e.isVisible && Shape(cached) == Lengths()
      modifies vertices, vertexAnim
      ensures faulted <==> i >= MaxCharsToAnimate
      ensures var src := QuadAt(cached, e.materialReferenceIndex, e.vertexIndex);
        if faulted then
          Live() == WithQuad(old(Live()), e.materialReferenceIndex, e.vertexIndex, Relative(src, TopCenterPivot(src, e.topRightY))) &&
          vertexAnim[..] == old(vertexAnim[..])
        else
          var angle := DangleAngle(cfg, mode, old(vertexAnim[i]), loopCount, i);
          Live() == WithQuad(old(Live()), e.materialReferenceIndex, e.vertexIndex, DangleQuad(trig, cfg, angle, src, e.topRightY)) &&
          vertexAnim[..] == if mode == Dangle then old(vertexAnim[..])[i := old(vertexAnim[i]).(angle := angle)]
                            else old(vertexAnim[..])
    {
      var m, v := e.materialReferenceIndex, e.vertexIndex;
      ghost var before := Live();
      var src := QuadAt(cached, m, v);
      var pivot := TopCenterPivot(src, e.topRightY);
      StoreQuad(m, v, Relative(src, pivot));
      if i >= vertexAnim.Length {
        return true;
      }
      var angle := SwingSlot(cfg, i);
      TransformQuad(m, v, trig, DangleMotion(cfg, angle), pivot);
      WithQuadTwice(before, m, v, Relative(src, pivot), DangleQuad(trig, cfg, angle, src, e.topRightY));
      return false;
    }

    /** The Dangle loop handles character `i`, with characters 0 .. i-1 done: either one
        more character is done, or the loop stops here at the first glyph past the table. */
    method DangleStep(info: TextInfo, i: nat, cfg: Config, trig: Trig, ghost live: seq<seq<Vec3>>, ghost slots: seq<JitterAnim>)
      returns (faulted: bool)
      requires Valid() && Fits(info, Lengths()) && Shape(cached) == Lengths() && Shape(live) == Lengths()
      requires i < info.characterCount && i <= FirstOverflow(info)
      requires Live() == ApplyEdits(live, info, DangleEdits(info, cached, cfg, trig, mode, slots, loopCount), i)
      requires vertexAnim[..] == SwungSlots(slots, info, cfg, mode, loopCount, i)
      modifies vertices, vertexAnim
      ensures faulted <==> FirstOverflow(info) == i
      ensures !faulted ==>
        Live() == ApplyEdits(live, info, DangleEdits(info, cached, cfg, trig, mode, slots, loopCount), i + 1) &&
        vertexAnim[..] == SwungSlots(slots, info, cfg, mode, loopCount, i + 1)
      ensures faulted ==>
        Live() == DangledBuffers(live, info, cached, cfg, trig, mode, slots, loopCount) &&
        vertexAnim[..] == SwungSlots(slots, info, cfg, mode, loopCount, info.characterCount)
    {
      ghost var edits := DangleEdits(info, cached, cfg, trig, mode, slots, loopCount);
      var e := info.characterInfo[i];
      ApplyEditsNext(live, info, edits, i);
      SwungSlotsNext(slots, info, cfg, mode, loopCount, i);
      faulted := false;
      if e.isVisible {
        faulted := DangleGlyph(e, i, cfg, trig);
        if faulted {
          SwungSlotsPastTable(slots, info, cfg, mode, loopCount, i);
          DangledBuffersStopped(live, info, cached, cfg, trig, mode, slots, loopCount, i);
        }
      }
    }

    /** The character loop of a Dangle iteration; it stops at the first visible character
        past the table, whose quad has by then been moved to its top-centre. */
    method DangleGlyphs(info: TextInfo, cfg: Config, trig: Trig, ghost live: seq<seq<Vec3>>, ghost slots: seq<JitterAnim>)
      returns (faulted: bool)
      requires Valid() && Fits(info, Lengths()) && Shape(cached) == Lengths()
      requires live == Live() && slots == vertexAnim[..]
      modifies vertices, vertexAnim
      ensures faulted <==> FirstOverflow(info) < info.characterCount
      ensures vertexAnim[..] == SwungSlots(slots, info, cfg, mode, loopCount, info.characterCount)
      ensures Live() == DangledBuffers(live, info, cached, cfg, trig, mode, slots, loopCount)
    {
      var i := 0;
      while i < info.characterCount
        invariant 0 <= i <= FirstOverflow(info)
        invariant Live() == ApplyEdits(live, info, DangleEdits(info, cached, cfg, trig, mode, slots, loopCount), i)
        invariant vertexAnim[..] == SwungSlots(slots, info, cfg, mode, loopCount, i)
      {
        var stopped := DangleStep(info, i, cfg, trig, live, slots);
        if stopped {
          return true;
        }
        i := i + 1;
      }
      DangledBuffersComplete(live, info, cached, cfg, trig, mode, slots, loopCount);
      return false;
    }

    /** A Dangle iteration once the snapshot is current and there is text: the character
        loop, then either the end of the coroutine or the next tick. */
    method DangleIteration(info: TextInfo, cfg: Config, trig: Trig, ghost live: seq<seq<Vec3>>, ghost slots: seq<JitterAnim>)
      returns (outcome: Outcome)
      requires Valid() && running == DangleLoop && Fits(info, Lengths()) && info.characterCount > 0
      requires live == Live() && slots == vertexAnim[..]
      modifies this`loopCount, this`running, vertices, vertexAnim
      ensures Valid() && Shape(cached) == Lengths()
      ensures Live() == DangledBuffers(live, info, cached, cfg, trig, mode, slots, old(loopCount))
      ensures vertexAnim[..] == SwungSlots(slots, info, cfg, mode, old(loopCount), info.characterCount)
      ensures if FirstOverflow(info) < info.characterCount
              then outcome == Faulted && running == Idle && loopCount == old(loopCount)
              else outcome == Advanced && running == DangleLoop && loopCount == old(loopCount) + 1
    {
      var faulted := DangleGlyphs(info, cfg, trig, live, slots);
      if faulted {
        running := Idle;
        outcome := Faulted;
      } else {
        loopCount := loopCount + 1;
        outcome := Advanced;
      }
    }

    /** One iteration of AnimateVertexPositionsDangle: refresh the snapshot if asked, wait
        while there is no text, otherwise swing every visible glyph about its top-centre and
        count the tick; a glyph past the table ends the coroutine instead. */
    method DangleTick(info: TextInfo, cfg: Config, trig: Trig) returns (outcome: Outcome)
      requires Valid() && running == DangleLoop && Fits(info, Lengths())
      modifies this`cached, this`hasTextChanged, this`loopCount, this`running, vertices, vertexAnim
      ensures Valid() && !hasTextChanged && Shape(cached) == Lengths()
      ensures cached == if old(hasTextChanged) then old(Live()) else old(cached)
      ensures Colors() == old(Colors())
      ensures info.characterCount == 0 ==>
        outcome == Waiting && running == DangleLoop && Live() == old(Live()) &&
        loopCount == old(loopCount) && vertexAnim[..] == old(vertexAnim[..])
      ensures info.characterCount > 0 ==>
        Live() == DangledBuffers(old(Live()), info, cached, cfg, trig, mode, old(vertexAnim[..]), old(loopCount)) &&
        vertexAnim[..] == SwungSlots(old(vertexAnim[..]), info, cfg, mode, old(loopCount), info.characterCount) &&
        if FirstOverflow(info) < info.characterCount
        then outcome == Faulted && running == Idle && loopCount == old(loopCount)
        else outcome == Advanced && running == DangleLoop && loopCount == old(loopCount) + 1
    {
      ghost var live, table := Live(), vertexAnim[..];
      RefreshSnapshot();
      if info.characterCount == 0 {
        return Waiting;
      }
      outcome := DangleIteration(info, cfg, trig, live, table);
    }
  }
}
