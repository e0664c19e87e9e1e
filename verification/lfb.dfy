/**
 The linear frame buffer.  The guest either writes through a device window, each
 access translated to the host's stride, or writes a shadow in shared memory that is
 copied row by row when the buffer is unlocked.  The two must leave the host buffer
 the same.
 */
module Lfb {
  import opened Memory
  import opened Words

  const PITCH: nat := 0x800   // bytes from row to row in the shadow, 16-bit modes

  // Visible rows, bytes in a row, bytes from row to row on the host.
  datatype Geometry = Geometry(rows: nat, width: nat, stride: nat)

  ghost predicate Fits(geo: Geometry, g: seq<Byte>, h: seq<Byte>) {
    && 0 < geo.width <= geo.stride
    && (geo.rows > 0 ==> (geo.rows - 1) * PITCH + geo.width <= |g|)
    && (geo.rows > 0 ==> (geo.rows - 1) * geo.stride + geo.width <= |h|)
  }

  // translateLfb: the host position of a position in the guest's window.
  function TranslateLfb(offset: nat, stride: nat): nat {
    var y := offset / PITCH;
    var x := offset - y * PITCH;
    x + y * stride
  }

  // Row a lies wholly before row b.
  lemma {:induction false} RowsOrdered(a: nat, b: nat, d: nat)
    requires a < b
    ensures a * d + d <= b * d
  {
    if a + 1 < b {
      RowsOrdered(a, b - 1, d);
    }
    assert (b - 1) * d + d == b * d;
  }

  // m with `bytes` stored from position p on, if they fit.
  function Store(m: seq<Byte>, p: nat, bytes: seq<Byte>): (r: seq<Byte>)
    ensures |r| == |m|
    ensures forall b {:trigger r[b]} :: 0 <= b < |m| && p + |bytes| <= |m| ==>
        r[b] == if p <= b < p + |bytes| then bytes[b - p] else m[b]
  {
    if p + |bytes| <= |m| then Patched(m, p, bytes) else m
  }

  lemma StoreFits(m: seq<Byte>, p: nat, bytes: seq<Byte>)
    requires p + |bytes| <= |m|
    ensures Store(m, p, bytes) == Patched(m, p, bytes)
  {
  }

  // ---------- flush ----------

  // A row of a buffer, d bytes from row to row.
  function Row(m: seq<Byte>, y: nat, d: nat, width: nat): seq<Byte> {
    if y * d + width <= |m| then m[y * d..y * d + width] else []
  }

  // The host buffer after the first n visible rows of the shadow were copied to it.
  function CopyRows(geo: Geometry, n: nat, g: seq<Byte>, h: seq<Byte>): (r: seq<Byte>)
    ensures |r| == |h|
  {
    if n == 0 then h
    else Store(CopyRows(geo, n - 1, g, h), (n - 1) * geo.stride, Row(g, n - 1, PITCH, geo.width))
  }

  function Flush(geo: Geometry, g: seq<Byte>, h: seq<Byte>): seq<Byte> {
    CopyRows(geo, geo.rows, g, h)
  }

  lemma RowFits(geo: Geometry, y: nat, g: seq<Byte>, h: seq<Byte>)
    requires Fits(geo, g, h) && y < geo.rows
    ensures y * geo.stride + geo.width <= |h| && y * PITCH + geo.width <= |g|
  {
    if y < geo.rows - 1 {
      RowsOrdered(y, geo.rows - 1, geo.stride);
    }
  }

  lemma CopyRowsNone(geo: Geometry, g: seq<Byte>, h: seq<Byte>)
    ensures CopyRows(geo, 0, g, h) == h
  {
  }

  lemma CopyRowsNext(geo: Geometry, y: nat, g: seq<Byte>, h: seq<Byte>)
    requires y * PITCH + geo.width <= |g|
    ensures CopyRows(geo, y + 1, g, h) == Store(CopyRows(geo, y, g, h), y * geo.stride,
        g[y * PITCH..y * PITCH + geo.width])
    ensures (y + 1) * geo.stride == y * geo.stride + geo.stride
  {
  }

  // One row of the flush.
  method CopyRow(dst: array<Byte>, dp: nat, src: array<Byte>, sp: nat, width: nat)
    requires src != dst && sp + width <= src.Length && dp + width <= dst.Length
    modifies dst
    ensures dst[..] == Store(old(dst[..]), dp, src[sp..sp + width])
  {
    StoreFits(dst[..], dp, src[sp..sp + width]);
    Memcpy(dst, dp, src, sp, width);
  }

  // vgLfbFlush: copy each visible row of the shadow to the host buffer, unless the guest has
  // that buffer mapped.
  method VgLfbFlush(gLfb: array<Byte>, hLfb: array?<Byte>, geo: Geometry, emu211: bool, mapped: bool)
    requires hLfb != null && (emu211 || !mapped) ==> hLfb != gLfb && Fits(geo, gLfb[..], hLfb[..])
    modifies if hLfb != null && (emu211 || !mapped) then {hLfb} else {}
    ensures hLfb != null && (emu211 || !mapped) ==> hLfb[..] == Flush(geo, gLfb[..], old(hLfb[..]))
  {
    hide Fits, Flush;
    if !emu211 && mapped {
      return;
    }
    if hLfb != null {
      FlushRows(gLfb, hLfb, geo);
    }
  }

  method FlushRows(gLfb: array<Byte>, hLfb: array<Byte>, geo: Geometry)
    requires hLfb != gLfb && Fits(geo, gLfb[..], hLfb[..])
    modifies hLfb
    ensures hLfb[..] == Flush(geo, gLfb[..], old(hLfb[..]))
  {
    hide Patched, Store, CopyRows, Row, Fits;
    CopyRowsNone(geo, gLfb[..], hLfb[..]);
    ghost var g, h := gLfb[..], hLfb[..];
    var hp: nat, gp: nat := 0, 0;
    for y := 0 to geo.rows
      invariant hp == y * geo.stride && gp == y * PITCH && gLfb[..] == g
      invariant hLfb[..] == CopyRows(geo, y, g, h)
    {
      RowFits(geo, y, g, h);
      CopyRowsNext(geo, y, g, h);
      assert gLfb[gp..gp + geo.width] == g[gp..gp + geo.width];
      CopyRow(hLfb, hp, gLfb, gp, geo.width);
      hp, gp := hp + geo.stride, gp + PITCH;
    }
  }

  // ---------- guest writes ----------

  // An access of 2, 4 or 8 bytes, least significant byte first.
  datatype Access = Access(offset: nat, bytes: seq<Byte>)

  // The access lies inside one visible row.
  predicate Visible(geo: Geometry, a: Access) {
    a.offset / PITCH < geo.rows && a.offset % PITCH + |a.bytes| <= geo.width && a.offset % PITCH + |a.bytes| <= PITCH
  }

  // glideLfb_write: sizes other than 2, 4 and 8 are reported and dropped.
  method GlideLfbWrite(lfb: array<Byte>, addr: nat, val: nat, size: nat, emu211: bool, stride: nat)
    requires (if emu211 then TranslateLfb(addr, stride) else addr) + size <= lfb.Length
    modifies lfb
    ensures lfb[..] == if size in {2, 4, 8}
                       then Store(old(lfb[..]), if emu211 then TranslateLfb(addr, stride)
                           else addr, LittleEnd(val, size))
                       else old(lfb[..])
  {
    var p := if emu211 then TranslateLfb(addr, stride) else addr;
    if size == 2 || size == 4 || size == 8 {
      var bytes := LittleEnd(val, size);
      forall k | 0 <= k < size {
        lfb[p + k] := bytes[k];
      }
    }
  }

  function ShadowWrites(g: seq<Byte>, ws: seq<Access>): seq<Byte>
    decreases ws
  {
    if ws == [] then g else ShadowWrites(Store(g, ws[0].offset, ws[0].bytes), ws[1..])
  }

  function DirectWrites(geo: Geometry, h: seq<Byte>, ws: seq<Access>): seq<Byte>
    decreases ws
  {
    if ws == [] then h
    else DirectWrites(geo, Store(h, TranslateLfb(ws[0].offset, geo.stride), ws[0].bytes), ws[1..])
  }

  // ---------- equivalence ----------

  // The visible rectangle of the shadow shows the host buffer.
  ghost predicate Mirrors(geo: Geometry, g: seq<Byte>, h: seq<Byte>) {
    Fits(geo, g, h) && forall y :: 0 <= y < geo.rows ==> Row(g, y, PITCH, geo.width) == Row(h, y, geo.stride, geo.width)
  }

  // Byte b of the host buffer is in one of the first n visible rows.
  ghost predicate InRows(geo: Geometry, n: nat, b: nat) {
    exists y :: 0 <= y < n && RowHas(geo, y, b)
  }

  ghost predicate RowHas(geo: Geometry, y: nat, b: nat) {
    y * geo.stride <= b < y * geo.stride + geo.width
  }

  // A store into row y0, at x0, leaves the other rows alone.
  lemma OtherRow(m: seq<Byte>, d: nat, width: nat, y0: nat, x0: nat, bytes: seq<Byte>, y: nat)
    requires x0 + |bytes| <= d && y0 * d + x0 + |bytes| <= |m| && y * d + width <= |m|
    requires y != y0 && width <= d
    ensures Row(Store(m, y0 * d + x0, bytes), y, d, width) == Row(m, y, d, width)
  {
    if y < y0 {
      RowsOrdered(y, y0, d);
    } else {
      RowsOrdered(y0, y, d);
    }
  }

  lemma RowIs(m: seq<Byte>, y: nat, d: nat, width: nat)
    requires y * d + width <= |m|
    ensures Row(m, y, d, width) == m[y * d..y * d + width]
  {
  }

  // A store into row y0 is a store into that row's own bytes.
  lemma SameRow(m: seq<Byte>, d: nat, width: nat, y0: nat, x0: nat, bytes: seq<Byte>)
    requires x0 + |bytes| <= width && y0 * d + width <= |m|
    ensures Row(Store(m, y0 * d + x0, bytes), y0, d, width) == Store(Row(m, y0, d, width), x0, bytes)
  {
    hide Row, Store;
    RowIs(m, y0, d, width);
    RowIs(Store(m, y0 * d + x0, bytes), y0, d, width);
    SameRowBytes(m, y0 * d, width, x0, bytes, Row(m, y0, d, width), Row(Store(m, y0 * d + x0, bytes), y0, d, width));
  }

  // The same with the row's start as a number.
  lemma SameRowBytes(m: seq<Byte>, at: nat, width: nat, x0: nat, bytes: seq<Byte>, row: seq<Byte>, row': seq<Byte>)
    requires x0 + |bytes| <= width && at + width <= |m|
    requires row == m[at..at + width] && row' == Store(m, at + x0, bytes)[at..at + width]
    ensures row' == Store(row, x0, bytes)
  {
    hide Store;
    forall x | 0 <= x < width ensures row'[x] == Store(row, x0, bytes)[x] {
      assert row'[x] == Store(m, at + x0, bytes)[at + x];
    }
  }

  // One visible write, made on both sides, keeps the mirror and touches only its row.
  lemma WriteKeepsMirror(geo: Geometry, g: seq<Byte>, h: seq<Byte>, a: Access)
    requires Mirrors(geo, g, h) && Visible(geo, a) && geo.width <= PITCH
    ensures var h' := Store(h, TranslateLfb(a.offset, geo.stride), a.bytes);
            && Mirrors(geo, Store(g, a.offset, a.bytes), h')
            && forall b :: 0 <= b < |h| && !InRows(geo, geo.rows, b) ==> h'[b] == h[b]
  {
    var y0: nat, x0: nat := a.offset / PITCH, a.offset % PITCH;
    var p := TranslateLfb(a.offset, geo.stride);
    assert a.offset == y0 * PITCH + x0 && p == y0 * geo.stride + x0;
    RowFits(geo, y0, g, h);
    WriteInRow(geo, g, h, y0, x0, a.bytes);
    forall b | 0 <= b < |h| && !InRows(geo, geo.rows, b) ensures Store(h, p, a.bytes)[b] == h[b] {
      assert !RowHas(geo, y0, b);
    }
  }

  lemma WriteInRow(geo: Geometry, g: seq<Byte>, h: seq<Byte>, y0: nat, x0: nat, bytes: seq<Byte>)
    requires Mirrors(geo, g, h) && geo.width <= PITCH && y0 < geo.rows && x0 + |bytes| <= geo.width
    ensures Mirrors(geo, Store(g, y0 * PITCH + x0, bytes), Store(h, y0 * geo.stride + x0, bytes))
  {
    hide Row, Store;
    var g', h' := Store(g, y0 * PITCH + x0, bytes), Store(h, y0 * geo.stride + x0, bytes);
    forall y | 0 <= y < geo.rows
      ensures Row(g', y, PITCH, geo.width) == Row(h', y, geo.stride, geo.width)
    {
      RowFits(geo, y, g, h);
      RowFits(geo, y0, g, h);
      assert Row(g, y, PITCH, geo.width) == Row(h, y, geo.stride, geo.width);
      if y == y0 {
        SameRow(g, PITCH, geo.width, y0, x0, bytes);
        SameRow(h, geo.stride, geo.width, y0, x0, bytes);
      } else {
        OtherRow(g, PITCH, geo.width, y0, x0, bytes, y);
        OtherRow(h, geo.stride, geo.width, y0, x0, bytes, y);
      }
    }
  }

  // Flushing a mirror changes nothing.
  lemma {:induction false} FlushOfMirror(geo: Geometry, n: nat, g: seq<Byte>, h: seq<Byte>)
    requires Mirrors(geo, g, h) && n <= geo.rows
    ensures CopyRows(geo, n, g, h) == h
  {
    if n == 0 {
    } else {
      FlushOfMirror(geo, n - 1, g, h);
      RowFits(geo, n - 1, g, h);
      assert Row(g, n - 1, PITCH, geo.width) == Row(h, n - 1, geo.stride, geo.width);
    }
  }

  // A flush does not depend on what the visible rows held before it.
  lemma {:induction false} FlushOverwrites(geo: Geometry, n: nat, g: seq<Byte>, h: seq<Byte>, h': seq<Byte>, b: nat)
    requires Fits(geo, g, h) && |h| == |h'| && n <= geo.rows && b < |h|
    requires h[b] == h'[b] || InRows(geo, n, b)
    ensures CopyRows(geo, n, g, h)[b] == CopyRows(geo, n, g, h')[b]
  {
    if n == 0 {
    } else {
      RowFits(geo, n - 1, g, h);
      if !RowHas(geo, n - 1, b) {
        assert InRows(geo, n, b) ==> InRows(geo, n - 1, b);
        FlushOverwrites(geo, n - 1, g, h, h', b);
      }
    }
  }

  lemma {:induction false} WritesKeepMirror(geo: Geometry, g: seq<Byte>, h: seq<Byte>, ws: seq<Access>)
    requires Mirrors(geo, g, h) && geo.width <= PITCH && forall a :: a in ws ==> Visible(geo, a)
    ensures Mirrors(geo, ShadowWrites(g, ws), DirectWrites(geo, h, ws)) && |DirectWrites(geo, h, ws)| == |h|
    ensures forall b :: 0 <= b < |h| && !InRows(geo, geo.rows, b) ==> DirectWrites(geo, h, ws)[b] == h[b]
    decreases ws
  {
    if ws == [] {
    } else {
      WriteKeepsMirror(geo, g, h, ws[0]);
      WritesKeepMirror(geo, Store(g, ws[0].offset, ws[0].bytes),
                       Store(h, TranslateLfb(ws[0].offset, geo.stride), ws[0].bytes), ws[1..]);
    }
  }

  // Any visible writes to a shadow that mirrors the host buffer, then a flush, leave
  // the host buffer as if each write had been translated to it; nothing outside the
  // visible rectangle changes.
  lemma FlushRefinesTranslation(geo: Geometry, g: seq<Byte>, h: seq<Byte>, ws: seq<Access>)
    requires Mirrors(geo, g, h) && geo.width <= PITCH && forall a :: a in ws ==> Visible(geo, a)
    ensures Flush(geo, ShadowWrites(g, ws), h) == DirectWrites(geo, h, ws)
    ensures forall b :: 0 <= b < |h| && !InRows(geo, geo.rows, b) ==> Flush(geo, ShadowWrites(g, ws), h)[b] == h[b]
  {
    var g', h' := ShadowWrites(g, ws), DirectWrites(geo, h, ws);
    WritesKeepMirror(geo, g, h, ws);
    FlushOfMirror(geo, geo.rows, g', h');
    forall b | 0 <= b < |h| ensures Flush(geo, g', h)[b] == h'[b] {
      FlushOverwrites(geo, geo.rows, g', h, h', b);
    }
  }

  // One write, then a flush, against the translated write.
  ghost predicate FlushAgrees(geo: Geometry, g: seq<Byte>, h: seq<Byte>, a: Access) {
    Mirrors(geo, g, h) && Visible(geo, a) ==> Flush(geo, ShadowWrites(g, [a]), h) == DirectWrites(geo, h, [a])
  }

  // With rows wider than the shadow's pitch, a byte of row 1 is also copied as row 0's.
  lemma {:induction false} AliasedByte(geo: Geometry, n: nat, g: seq<Byte>, h: seq<Byte>)
    requires Fits(geo, g, h) && 1 <= n <= geo.rows && PITCH < geo.width
    ensures PITCH < |h| && CopyRows(geo, n, g, h)[PITCH] == g[PITCH]
  {
    RowFits(geo, n - 1, g, h);
    RowFits(geo, 0, g, h);
    if n > 1 {
      AliasedByte(geo, n - 1, g, h);
      if n > 2 {
        RowsOrdered(1, n - 1, geo.stride);
      }
      assert geo.stride <= (n - 1) * geo.stride;
    }
  }

  // A row longer than the pitch shares bytes with the next one.
  lemma AliasedDisagrees(geo: Geometry)
    requires 2 <= geo.rows && PITCH < geo.width <= geo.stride
    ensures exists g, h, a :: !FlushAgrees(geo, g, h, a)
  {
    var g: seq<Byte> := seq(geo.rows * PITCH + geo.width, _ => 0);
    var h: seq<Byte> := seq(geo.rows * geo.stride, _ => 0);
    var a := Access(PITCH, [1, 0]);
    forall y | 0 <= y < geo.rows ensures Row(g, y, PITCH, geo.width) == Row(h, y, geo.stride, geo.width) {
      RowFits(geo, y, g, h);
    }
    assert Mirrors(geo, g, h) && Visible(geo, a);
    var g', h' := Store(g, PITCH, a.bytes), Store(h, geo.stride, a.bytes);
    assert ShadowWrites(g, [a]) == ShadowWrites(g', []) == g';
    assert DirectWrites(geo, h, [a]) == DirectWrites(geo, h', []) == h';
    AliasedByte(geo, geo.rows, g', h);
    RowFits(geo, 1, g, h);
    assert Flush(geo, g', h)[PITCH] == 1 && h'[PITCH] == 0;
    assert !FlushAgrees(geo, g, h, a);
  }

  // The shadow is faithful exactly for rows no wider than its pitch: 1024 pixels.
  lemma ShadowExact(geo: Geometry)
    requires 2 <= geo.rows && 0 < geo.width <= geo.stride
    ensures (forall g, h, a :: FlushAgrees(geo, g, h, a)) <==> geo.width <= 0x800
  {
    if geo.width <= PITCH {
      forall g, h, a ensures FlushAgrees(geo, g, h, a) {
        if Mirrors(geo, g, h) && Visible(geo, a) {
          FlushRefinesTranslation(geo, g, h, [a]);
        }
      }
    } else {
      AliasedDisagrees(geo);
    }
  }
}
