/**
 The Glide3x vertex layout table.  Guest and host each hold one, and both derive
 the size of a vertex in the stream from it.
 */
module Vertex3x {
  import opened Words

  const NPARAM: nat := 12

  // Byte length of each parameter, by table index.
  function SLen(i: nat): nat
    requires i < NPARAM
  {
    if i == 6 then 12 else if i == 0 || i == 8 || i == 10 then 8 else 4
  }

  const GR_PARAM_Q := 0x04
  const GR_PARAM_A := 0x10
  const GR_PARAM_RGB := 0x20
  const GR_PARAM_PARGB := 0x30

  // The GR_PARAM_IDX macro.
  function RawIdx(p: Word): int {
    if p / 16 % 16 != 0 then
      if p % 2 != 0 then p / 16 + 6 else p / 16 + GR_PARAM_Q
    else p - 1
  }

  // The parameters it gives an entry of the table; the twelve of Glide3x are among them.
  predicate ValidParam(p: Word) {
    0 <= RawIdx(p) < NPARAM
  }

  function ParamIdx(p: Word): (i: nat)
    requires ValidParam(p)
    ensures i < NPARAM
  {
    RawIdx(p)
  }

  // Table entry and byte length of each parameter Glide has: x and y, z, w, q, fog, a, rgb,
  // packed argb, and the s, t pair and q of two textures.
  function GlideEntry(p: Word): Option<(nat, nat)> {
    match p
    case 0x01 => Some((0, 8))
    case 0x02 => Some((1, 4))
    case 0x03 => Some((2, 4))
    case 0x04 => Some((3, 4))
    case 0x05 => Some((4, 4))
    case 0x10 => Some((5, 4))
    case 0x20 => Some((6, 12))
    case 0x30 => Some((7, 4))
    case 0x40 => Some((8, 8))
    case 0x50 => Some((9, 4))
    case 0x41 => Some((10, 8))
    case 0x51 => Some((11, 4))
    case _ => None
  }

  lemma GlideParams(p: Word)
    requires GlideEntry(p).Some?
    ensures ValidParam(p) && ParamIdx(p) == GlideEntry(p).value.0 && SLen(ParamIdx(p)) == GlideEntry(p).value.1
  {
  }

  type Vlut = v: seq<int> | |v| == NPARAM witness [0, 0, 0, 0, 0, 0, 0, 0, 0, 0, 0, 0]

  const EMPTY_VLUT: Vlut := [0, 0, 0, 0, 0, 0, 0, 0, 0, 0, 0, 0]

  // A 32-bit word stored in a C int.
  function AsInt(w: Word): int {
    if w < 0x8000_0000 then w else w - 0x1_0000_0000
  }

  // The table after one layout call.
  function SetParam(v: Vlut, param: Word, offs: Word, mode: Word): Vlut
    requires ValidParam(param)
  {
    var v1 := v[ParamIdx(param) := if mode != 0 then AsInt(offs) else 0];
    if param == GR_PARAM_PARGB then
      v1[ParamIdx(GR_PARAM_A) := 0][ParamIdx(GR_PARAM_RGB) := 0]
    else if param == GR_PARAM_RGB then
      v1[ParamIdx(GR_PARAM_PARGB) := 0]
    else v1
  }

  // Vertex size over the first n parameters.
  function SizeUpTo(v: Vlut, n: nat): (r: nat)
    requires n <= NPARAM
    ensures r >= SLen(0)
  {
    if n == 0 then SLen(0)
    else
      var r := SizeUpTo(v, n - 1);
      if v[n - 1] != 0 && v[n - 1] + SLen(n - 1) > r then v[n - 1] + SLen(n - 1) else r
  }

  function VertexSize(v: Vlut): nat {
    SizeUpTo(v, NPARAM)
  }

  // A vertex is exactly as long as its furthest enabled parameter, and never
  // shorter than the x,y pair: nothing the layout names is cut off.
  lemma {:induction false} SizeIsLeastCover(v: Vlut, n: nat)
    requires n <= NPARAM
    ensures forall i :: 0 <= i < n && v[i] != 0 ==> v[i] + SLen(i) <= SizeUpTo(v, n)
    ensures SizeUpTo(v, n) == SLen(0) || exists i :: 0 <= i < n && v[i] != 0 && v[i] + SLen(i) == SizeUpTo(v, n)
  {
    if n == 0 {
    } else {
      SizeIsLeastCover(v, n - 1);
    }
  }

  // Setting packed argb or rgb clears the parameters it stands for.
  predicate Clears(param: Word, i: nat) {
    (param == 0x30 && i in {5, 6}) || (param == 0x20 && i == 7)
  }

  // What one layout call does to entry i: its own becomes the offset, or 0 when disabled; one
  // it stands for becomes 0; any other stays.
  lemma LayoutEntry(v: Vlut, param: Word, offs: Word, mode: Word, i: nat)
    requires ValidParam(param) && i < 12
    ensures i == ParamIdx(param) && mode == 0 ==> SetParam(v, param, offs, mode)[i] == 0
    ensures i == ParamIdx(param) && mode != 0 && offs < 0x8000_0000 ==> SetParam(v, param, offs, mode)[i] == offs
    ensures i == ParamIdx(param) && mode != 0 && offs >= 0x8000_0000 ==>
              SetParam(v, param, offs, mode)[i] == offs - 0x1_0000_0000
    ensures i != ParamIdx(param) && Clears(param, i) ==> SetParam(v, param, offs, mode)[i] == 0
    ensures i != ParamIdx(param) && !Clears(param, i) ==> SetParam(v, param, offs, mode)[i] == v[i]
  {
    assert param == 0x30 ==> ParamIdx(param) == 7;
    assert param == 0x20 ==> ParamIdx(param) == 6;
    assert ParamIdx(0x10) == 5 && ParamIdx(0x20) == 6 && ParamIdx(0x30) == 7;
  }

  // A parameter enabled at an offset is inside the vertex.
  lemma EnabledInside(v: Vlut, param: Word, offs: Word, mode: Word)
    requires GlideEntry(param).Some? && mode != 0 && 0 < offs < 0x8000_0000
    ensures VertexSize(SetParam(v, param, offs, mode)) >= offs + GlideEntry(param).value.1
  {
    GlideParams(param);
    var i := ParamIdx(param);
    LayoutEntry(v, param, offs, mode, i);
    hide SetParam, GlideEntry, SLen;
    SizeIsLeastCover(SetParam(v, param, offs, mode), NPARAM);
  }

  method VlutVars(vlut: array<int>, param: Word, offs: Word, mode: Word)
    requires vlut.Length == NPARAM && ValidParam(param)
    modifies vlut
    ensures vlut[..] == SetParam(old(vlut[..]), param, offs, mode)
  {
    vlut[ParamIdx(param)] := if mode != 0 then AsInt(offs) else 0;
    if param == GR_PARAM_PARGB {
      vlut[ParamIdx(GR_PARAM_A)] := 0;
      vlut[ParamIdx(GR_PARAM_RGB)] := 0;
    }
    if param == GR_PARAM_RGB {
      vlut[ParamIdx(GR_PARAM_PARGB)] := 0;
    }
  }

  method SizeVertex3x(vlut: array<int>) returns (ret: nat)
    requires vlut.Length == NPARAM
    ensures ret == VertexSize(vlut[..])
  {
    ret := SLen(0);
    for i := 0 to NPARAM
      invariant ret == SizeUpTo(vlut[..], i)
    {
      ret := if vlut[i] != 0 && vlut[i] + SLen(i) > ret then vlut[i] + SLen(i) else ret;
    }
  }

  method ClearVlut(vlut: array<int>)
    requires vlut.Length == NPARAM
    modifies vlut
    ensures vlut[..] == EMPTY_VLUT
  {
    forall i | 0 <= i < NPARAM { vlut[i] := 0; }
  }
}
