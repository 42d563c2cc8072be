/** The glyph side of the text object: what the layout system reports per character,
    the per-material vertex and colour buffers, and the one pattern every positional
    transform follows: visit characters 0 .. n-1 in order and rewrite the four
    vertices of each visible one. */
module Glyphs {
  import opened Geometry

  /** The fields of TMP_CharacterInfo the animations read. `topRightY` is `topRight.y`. */
  datatype CharInfo = CharInfo(isVisible: bool, materialReferenceIndex: nat, vertexIndex: nat, topRightY: real)

  /** TMP_TextInfo: the character table, which may hold stale entries past `characterCount`. */
  datatype TextInfo = TextInfo(characterInfo: seq<CharInfo>, characterCount: nat)

  newtype byte = x: int | 0 <= x < 256

  datatype Color32 = Color32(r: byte, g: byte, b: byte, a: byte)

  /** The length of each material's buffer. */
  function Shape<T>(buf: seq<seq<T>>): (r: seq<nat>)
    ensures |r| == |buf| && forall m :: 0 <= m < |buf| ==> r[m] == |buf[m]|
  {
    seq(|buf|, m requires 0 <= m < |buf| => |buf[m]|)
  }

  /** A character names an existing material, and a visible one owns four vertices of it. */
  predicate InBounds(e: CharInfo, shape: seq<nat>)
  {
    e.materialReferenceIndex < |shape| &&
    (e.isVisible ==> e.vertexIndex + 4 <= shape[e.materialReferenceIndex])
  }

  /** What the layout system guarantees about the characters it counts in the text info it hands out. */
  predicate Fits(info: TextInfo, shape: seq<nat>)
  {
    info.characterCount <= |info.characterInfo| &&
    forall i :: 0 <= i < info.characterCount ==> InBounds(info.characterInfo[i], shape)
  }

  /** Glyph `e` owns vertex `j` of material `m`. */
  predicate Covers(e: CharInfo, m: nat, j: nat)
  {
    e.isVisible && e.materialReferenceIndex == m && e.vertexIndex <= j < e.vertexIndex + 4
  }

  /** No visible glyph among the first `n` owns vertex `j` of material `m`. */
  predicate Untouched(info: TextInfo, n: nat, m: nat, j: nat)
    requires n <= |info.characterInfo|
  {
    forall i :: 0 <= i < n ==> !Covers(info.characterInfo[i], m, j)
  }

  predicate Apart(a: CharInfo, b: CharInfo)
  {
    a.materialReferenceIndex != b.materialReferenceIndex ||
    a.vertexIndex + 4 <= b.vertexIndex || b.vertexIndex + 4 <= a.vertexIndex
  }

  /** Distinct visible characters own distinct vertices (true of TextMeshPro's layout). */
  predicate Disjoint(info: TextInfo)
    requires info.characterCount <= |info.characterInfo|
  {
    forall i, k ::
      (0 <= i < k < info.characterCount &&
       info.characterInfo[i].isVisible && info.characterInfo[k].isVisible) ==>
      Apart(info.characterInfo[i], info.characterInfo[k])
  }

  /** The four vertices `v .. v+3` of material `m`, read as a quad. */
  function QuadAt(buf: seq<seq<Vec3>>, m: nat, v: nat): Quad
    requires m < |buf| && v + 4 <= |buf[m]|
  {
    Quad(buf[m][v], buf[m][v + 1], buf[m][v + 2], buf[m][v + 3])
  }

  /** Overwrites vertices `v .. v+3` of material `m` with the corners of `q`. */
  function WithQuad(buf: seq<seq<Vec3>>, m: nat, v: nat, q: Quad): (r: seq<seq<Vec3>>)
    requires m < |buf| && v + 4 <= |buf[m]|
    ensures Shape(r) == Shape(buf)
    ensures QuadAt(r, m, v) == q
  {
    buf[m := buf[m][v := q.bl][v + 1 := q.tl][v + 2 := q.tr][v + 3 := q.br]]
  }

  /** Every vertex outside the written quad keeps its value. */
  lemma WithQuadElsewhere(buf: seq<seq<Vec3>>, m: nat, v: nat, q: Quad, m': nat, j: nat)
    requires m < |buf| && v + 4 <= |buf[m]| && m' < |buf| && j < |buf[m']|
    requires !(m' == m && v <= j < v + 4)
    ensures WithQuad(buf, m, v, q)[m'][j] == buf[m'][j]
  {
  }

  /** Writing a glyph's quad twice leaves only the second write. */
  lemma WithQuadTwice(buf: seq<seq<Vec3>>, m: nat, v: nat, q1: Quad, q2: Quad)
    requires m < |buf| && v + 4 <= |buf[m]|
    ensures WithQuad(WithQuad(buf, m, v, q1), m, v, q2) == WithQuad(buf, m, v, q2)
  {
    var once, twice := WithQuad(buf, m, v, q1), WithQuad(buf, m, v, q2);
    var both := WithQuad(once, m, v, q2);
    assert both[m] == twice[m];
  }

  /** Writes colour `c` into the four entries `v .. v+3` of material `m`. */
  function Paint(buf: seq<seq<Color32>>, m: nat, v: nat, c: Color32): (r: seq<seq<Color32>>)
    requires m < |buf| && v + 4 <= |buf[m]|
    ensures Shape(r) == Shape(buf)
    ensures forall m', j :: 0 <= m' < |buf| && 0 <= j < |buf[m']| ==>
      r[m'][j] == if m' == m && v <= j < v + 4 then c else buf[m'][j]
  {
    buf[m := buf[m][v := c][v + 1 := c][v + 2 := c][v + 3 := c]]
  }

  /** What one transform does to one visible glyph: nothing, add an offset to its
      current corners, or replace them by a quad computed elsewhere. */
  datatype Edit = Keep | Shift(offset: Vec3) | Replace(quad: Quad)

  function ApplyEdit(e: Edit, q: Quad): Quad
  {
    match e
    case Keep => q
    case Shift(d) => Translate(q, d)
    case Replace(p) => p
  }

  /** The buffers after the character loop has handled characters 0 .. n-1:
      each visible one has `edits[i]` applied to its quad as it stands at that moment. */
  function ApplyEdits(buf: seq<seq<Vec3>>, info: TextInfo, edits: seq<Edit>, n: nat): (r: seq<seq<Vec3>>)
    requires Fits(info, Shape(buf)) && n <= info.characterCount && |edits| == info.characterCount
    ensures Shape(r) == Shape(buf)
    decreases n
  {
    if n == 0 then buf
    else
      var prev := ApplyEdits(buf, info, edits, n - 1);
      var e := info.characterInfo[n - 1];
      assert InBounds(e, Shape(buf));
      if e.isVisible then
        WithQuad(prev, e.materialReferenceIndex, e.vertexIndex,
                 ApplyEdit(edits[n - 1], QuadAt(prev, e.materialReferenceIndex, e.vertexIndex)))
      else prev
  }

  /** The loop handles one more character: a visible one has its edit applied to its quad
      as it stands after the earlier characters; an invisible one is skipped. */
  lemma ApplyEditsNext(buf: seq<seq<Vec3>>, info: TextInfo, edits: seq<Edit>, n: nat)
    requires Fits(info, Shape(buf)) && n < info.characterCount && |edits| == info.characterCount
    ensures InBounds(info.characterInfo[n], Shape(buf))
    ensures var e := info.characterInfo[n];
      var prev := ApplyEdits(buf, info, edits, n);
      ApplyEdits(buf, info, edits, n + 1) ==
      if e.isVisible
      then WithQuad(prev, e.materialReferenceIndex, e.vertexIndex,
                    ApplyEdit(edits[n], QuadAt(prev, e.materialReferenceIndex, e.vertexIndex)))
      else prev
  {
    assert InBounds(info.characterInfo[n], Shape(buf));
  }

  /** A vertex that no visible glyph among the first `n` owns keeps its value. */
  lemma {:induction false} ApplyEditsUntouched(buf: seq<seq<Vec3>>, info: TextInfo, edits: seq<Edit>, n: nat, m: nat, j: nat)
    requires Fits(info, Shape(buf)) && n <= info.characterCount && |edits| == info.characterCount
    requires m < |buf| && j < |buf[m]| && Untouched(info, n, m, j)
    ensures ApplyEdits(buf, info, edits, n)[m][j] == buf[m][j]
  {
    if n > 0 {
      var e := info.characterInfo[n - 1];
      assert !Covers(e, m, j);
      ApplyEditsUntouched(buf, info, edits, n - 1, m, j);
      if e.isVisible {
        var prev := ApplyEdits(buf, info, edits, n - 1);
        assert InBounds(e, Shape(buf));
        WithQuadElsewhere(prev, e.materialReferenceIndex, e.vertexIndex,
                          ApplyEdit(edits[n - 1], QuadAt(prev, e.materialReferenceIndex, e.vertexIndex)), m, j);
      }
    }
  }

  /** With disjoint glyphs, no visible glyph before `k` owns a vertex of glyph `k`. */
  lemma EarlierGlyphsMissQuad(info: TextInfo, k: nat, j: nat)
    requires info.characterCount <= |info.characterInfo| && Disjoint(info)
    requires k < info.characterCount && Covers(info.characterInfo[k], info.characterInfo[k].materialReferenceIndex, j)
    ensures Untouched(info, k, info.characterInfo[k].materialReferenceIndex, j)
  {
    var e := info.characterInfo[k];
    forall i | 0 <= i < k ensures !Covers(info.characterInfo[i], e.materialReferenceIndex, j) {
      if info.characterInfo[i].isVisible {
        assert Apart(info.characterInfo[i], e);
      }
    }
  }

  /** With disjoint glyphs, each visible glyph among the first `n` ends up with exactly
      its own edit applied to its quad as it was before the loop. */
  lemma {:induction false} ApplyEditsAt(buf: seq<seq<Vec3>>, info: TextInfo, edits: seq<Edit>, n: nat, k: nat)
    requires Fits(info, Shape(buf)) && n <= info.characterCount && |edits| == info.characterCount
    requires Disjoint(info) && k < n && info.characterInfo[k].isVisible
    ensures InBounds(info.characterInfo[k], Shape(buf))
    ensures var e := info.characterInfo[k];
      QuadAt(ApplyEdits(buf, info, edits, n), e.materialReferenceIndex, e.vertexIndex)
      == ApplyEdit(edits[k], QuadAt(buf, e.materialReferenceIndex, e.vertexIndex))
  {
    var e := info.characterInfo[k];
    assert InBounds(e, Shape(buf));
    var m, v := e.materialReferenceIndex, e.vertexIndex;
    var prev := ApplyEdits(buf, info, edits, n - 1);
    if n - 1 == k {
      EarlierGlyphsMissQuad(info, k, v);
      EarlierGlyphsMissQuad(info, k, v + 1);
      EarlierGlyphsMissQuad(info, k, v + 2);
      EarlierGlyphsMissQuad(info, k, v + 3);
      ApplyEditsUntouched(buf, info, edits, k, m, v);
      ApplyEditsUntouched(buf, info, edits, k, m, v + 1);
      ApplyEditsUntouched(buf, info, edits, k, m, v + 2);
      ApplyEditsUntouched(buf, info, edits, k, m, v + 3);
    } else {
      ApplyEditsAt(buf, info, edits, n - 1, k);
      var f := info.characterInfo[n - 1];
      if f.isVisible {
        assert Apart(e, f);
        assert InBounds(f, Shape(buf));
      }
    }
  }
}
