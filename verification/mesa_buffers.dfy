/**
 The host's map, flush and unmap calls, in place: each is proved to be one step of the
 machine in MappedBuffers.
 */
module MesaBuffers {
  import opened Words
  import opened BufObj
  import opened HeapList
  import opened MappedBuffers
  import opened Memory

  lemma PutAt(s: seq<Bufo>, b: Bufo)
    ensures var t := Looked(s, b.idx); var i := IndexOf(t, b.idx);
            i < |t| && t[i] == Record(s, b.idx) && Put(s, b) == t[i := b]
  {
    LookedIs(s, b.idx, IndexOf(s, b.idx));
    if !Has(s, b.idx) {
      IndexOfIs(s + [Zeroed(b.idx)], b.idx, |s|);
      assert (s + [Zeroed(b.idx)])[|s| := b] == s + [b];
    }
  }

  // Look a buffer up and set the fields of its record: a mapping's, or a flush's.
  method EnterMap(l: BufObjs, op: Op, used: nat)
    requires l.Valid() && op.Map? && used <= MGLFBT_SIZE
    modifies l, l.nodes
    ensures l.Valid() && l.Contents() == Put(old(l.Contents()), Entered(old(l.Contents()), used, op))
    ensures forall n :: n in l.nodes ==> n in old(l.nodes) || fresh(n)
  {
    hide IndexOf, Looked, Has, Distinct, List<Bufo>.Contents, Record;
    PutAt(l.Contents(), Entered(l.Contents(), used, op));
    PutAt(l.Contents(), Record(l.Contents(), op.idx));
    hide Put;
    var bo := LookupBufObj(l, op.idx);
    ghost var i := IndexOf(l.Contents(), op.idx);
    assert bo in l.nodes;
    Assign(l, bo, bo.item.(hva := op.hva, gpa := MGLFBT_SIZE - used, mused := used, mapsz := op.size,
                           offst := 0, range := if op.ranged then op.size else 0, acc := op.acc), i);
  }

  method EnterFlush(l: BufObjs, op: Op) returns (b: Bufo)
    requires l.Valid() && op.Flush?
    modifies l, l.nodes
    ensures b == Marked(Record(old(l.Contents()), op.idx), op)
    ensures l.Valid() && l.Contents() == Put(old(l.Contents()), b)
    ensures forall n :: n in l.nodes ==> n in old(l.nodes) || fresh(n)
  {
    hide IndexOf, Looked, Has, Distinct, List<Bufo>.Contents, Record;
    PutAt(l.Contents(), Marked(Record(l.Contents(), op.idx), op));
    PutAt(l.Contents(), Record(l.Contents(), op.idx));
    hide Put;
    var bo := LookupBufObj(l, op.idx);
    ghost var i := IndexOf(l.Contents(), op.idx);
    assert bo in l.nodes;
    Assign(l, bo, Marked(bo.item, op), i);
    b := bo.item;
  }

  method Locate(l: BufObjs, idx: int) returns (b: Bufo)
    requires l.Valid()
    modifies l, l.nodes
    ensures b == Record(old(l.Contents()), idx)
    ensures l.Valid() && l.Contents() == Looked(old(l.Contents()), idx)
    ensures forall n :: n in l.nodes ==> n in old(l.nodes) || fresh(n)
  {
    hide IndexOf, Looked, Has, Distinct, List<Bufo>.Contents;
    PutAt(l.Contents(), Record(l.Contents(), idx));
    hide Put, Record;
    var bo := LookupBufObj(l, idx);
    b := bo.item;
  }

  lemma FreedLooked(s: seq<Bufo>, idx: int)
    ensures Freed(Looked(s, idx), idx) == Freed(s, idx)
  {
    LookedIs(s, idx, IndexOf(s, idx));
    if !Has(s, idx) {
      IndexOfIs(s + [Zeroed(idx)], idx, |s|);
      FreedIs(s + [Zeroed(idx)], idx, |s|);
      assert Without(s + [Zeroed(idx)], |s|) == s;
    }
  }

  lemma MapFits(s: State, op: Op)
    requires op.Map? && Enabled(s, op)
    ensures s.used + AlignBo(op.size) <= MGLFBT_SIZE && (op.hva != 0 ==> op.hva + op.size <= |s.host|)
  {
    hide AlignBo;
  }

  lemma StepMap(s: State, t: State, op: Op)
    requires op.Map? && Enabled(s, op) && op.size <= AlignBo(op.size)
    requires t.list == Put(s.list, Entered(s.list, s.used, op)) && t.used == s.used + AlignBo(op.size)
    requires t.host == s.host
    requires t.fbt == if op.hva != 0 then Patched(s.fbt, MGLFBT_SIZE - s.used - AlignBo(op.size),
        s.host[op.hva..op.hva + op.size])
                      else s.fbt
    ensures t == Step(s, op)
  {
    hide AlignBo, Put, Patched;
  }

  lemma ReleasedLooked(s: seq<Bufo>, used: nat, b: Bufo)
    ensures Released(Looked(s, b.idx), used, b) == Released(s, used, b)
  {
    FreedLooked(s, b.idx);
  }

  lemma StepUnmap(s: State, idx: int)
    requires Enabled(s, Unmap(idx))
    ensures var b := Record(s.list, idx);
            && b.idx == idx
            && Step(s, Unmap(idx)) ==
                 State(Freed(Looked(s.list, idx), idx), Released(Looked(s.list, idx), s.used, b), s.fbt,
                   if CopiedAtUnmap(b.acc) then WriteBack(s.fbt, s.host, b) else s.host)
  {
    FreedLooked(s.list, idx);
    ReleasedLooked(s.list, s.used, Record(s.list, idx));
  }

  class MesaPT {
    const objs: BufObjs
    var szUsedBuf: nat
    const fbtm: array<Byte>
    const host: array<Byte>

    // ContextCreateCommon
    constructor (fbtm: array<Byte>, host: array<Byte>)
      requires fbtm != host && fbtm.Length == MGLFBT_SIZE
      ensures Valid() && fresh(objs) && objs.nodes == []
      ensures Abs() == Created(fbtm[..], host[..])
    {
      objs := new List<Bufo>();
      this.szUsedBuf, this.fbtm, this.host := 0, fbtm, host;
    }

    ghost predicate Valid()
      reads this, objs, objs.nodes
    {
      objs.Valid() && fbtm != host && fbtm.Length == MGLFBT_SIZE
    }

    ghost function Abs(): State
      reads this, objs, objs.nodes, fbtm, host
    {
      State(objs.Contents(), szUsedBuf, fbtm[..], host[..])
    }

    // wrFlushBufObj
    method WrFlushBufObj(b: Bufo)
      requires Valid() && CopyFits(b, host[..])
      modifies host
      ensures host[..] == WriteBack(fbtm[..], old(host[..]), b)
    {
      AlignBoBounds(b.mapsz);
      hide AlignBo, Distinct;
      if b.hva != 0 {
        var szBuf := if b.range != 0 then b.range else b.mapsz - b.offst;
        Memcpy(host, b.hva + b.offst, fbtm, b.gpa - AlignBo(b.mapsz) + b.offst, szBuf);
        assert fbtm[..][Base(b) + b.offst..Base(b) + b.offst + szBuf] ==
            fbtm[Base(b) + b.offst..Base(b) + b.offst + szBuf];
      }
    }

    // glMapBuffer, glMapBufferRange: hva is the address the mapping call returns, 0 when it
    // fails; the filling copy reads the same bytes through a mapping of its own.
    method MapBuffer(idx: int, hva: nat, size: nat, acc: MapAccess, ranged: bool) returns (fret: nat)
      requires Valid() && Enabled(Abs(), Map(idx, hva, size, acc, ranged))
      modifies this, objs, objs.nodes, fbtm
      ensures Valid()
      ensures Abs() == Step(old(Abs()), Map(idx, hva, size, acc, ranged))
      ensures fret == szUsedBuf + 1
    {
      hide IndexOf, Has, Distinct, AlignBo, List<Bufo>.Contents, List<Bufo>.Valid, Put, Patched, Entered, Step, Enabled;
      ghost var s, op := Abs(), Map(idx, hva, size, acc, ranged);
      MapFits(s, op);
      MapArgs(hva, size);
      assert host[..] == s.host && objs.Contents() == s.list;
      MapRet(idx, hva, size, acc, ranged);
      StepMap(s, Abs(), op);
      fret := szUsedBuf + 1;
    }

    method MapArgs(hva: nat, size: nat)
      requires Valid() && szUsedBuf + AlignBo(size) <= MGLFBT_SIZE && (hva != 0 ==> hva + size <= host.Length)
      modifies fbtm
      ensures size <= AlignBo(size)
      ensures fbtm[..] == if hva != 0 then Patched(old(fbtm[..]), MGLFBT_SIZE - szUsedBuf - AlignBo(size),
          host[..][hva..hva + size])
                          else old(fbtm[..])
    {
      hide AlignBo, Patched, Distinct;
      AlignBoBounds(size);
      if hva != 0 {
        Memcpy(fbtm, MGLFBT_SIZE - szUsedBuf - AlignBo(size), host, hva, size);
        assert host[..][hva..hva + size] == host[hva..hva + size];
      }
    }

    method MapRet(idx: int, hva: nat, size: nat, acc: MapAccess, ranged: bool)
      requires Valid() && szUsedBuf + AlignBo(size) <= MGLFBT_SIZE
      modifies this`szUsedBuf, objs, objs.nodes
      ensures Valid()
      ensures objs.Contents() == Put(old(objs.Contents()), Entered(old(objs.Contents()), old(szUsedBuf),
          Map(idx, hva, size, acc, ranged)))
      ensures szUsedBuf == old(szUsedBuf) + AlignBo(size)
    {
      hide IndexOf, Has, Distinct, AlignBo, List<Bufo>.Contents, Put, Entered;
      EnterMap(objs, Map(idx, hva, size, acc, ranged), szUsedBuf);
      szUsedBuf := szUsedBuf + AlignBo(size);
    }

    // The guest stores a byte through the pointer it computes from the mapping's result.
    method GuestStore(ghost idx: int, fret: nat, pos: nat, v: Byte)
      requires Valid() && Enabled(Abs(), Write(idx, pos, v))
      requires var b := Record(objs.Contents(), idx);
               b.gpa == MGLFBT_SIZE - b.mused && fret == b.mused + AlignBo(b.mapsz) + 1
      modifies fbtm
      ensures Abs() == Step(old(Abs()), Write(idx, pos, v))
    {
      AlignBoBounds(Record(objs.Contents(), idx).mapsz);
      hide AlignBo, Record, Has, Distinct, List<Bufo>.Contents;
      fbtm[MGLFBT_SIZE - (fret - 1) + pos] := v;
    }

    // glFlushMappedBufferRange, its named form and the APPLE one.
    method FlushRange(idx: int, off: nat, len: nat, apple: bool)
      requires Valid() && Enabled(Abs(), Flush(idx, off, len, apple))
      modifies objs, objs.nodes, host
      ensures Valid()
      ensures Abs() == Step(old(Abs()), Flush(idx, off, len, apple))
    {
      hide IndexOf, Has, Distinct, AlignBo, List<Bufo>.Contents, WriteBack, Put, Record, Marked;
      var b := EnterFlush(objs, Flush(idx, off, len, apple));
      WrFlushBufObj(b);
    }

    // glUnmapBuffer
    method UnmapBuffer(idx: int)
      requires Valid() && Enabled(Abs(), Unmap(idx))
      modifies this, objs, objs.nodes, host
      ensures Valid()
      ensures Abs() == Step(old(Abs()), Unmap(idx))
    {
      hide IndexOf, Has, Looked, Distinct, AlignBo, List<Bufo>.Contents, WriteBack, Freed, Record;
      StepUnmap(Abs(), idx);
      hide Released, Step;
      // processArgs
      var b := UnmapArgs(idx);
      assert forall i :: 0 <= i < |objs.nodes| ==> objs.nodes[i] in old(objs.nodes) || fresh(objs.nodes[i]);
      // processFRet
      UnmapRet(b);
    }

    method UnmapArgs(idx: int) returns (b: Bufo)
      requires Valid() && Enabled(Abs(), Unmap(idx))
      modifies objs, objs.nodes, host
      ensures Valid() && b == Record(old(objs.Contents()), idx)
      ensures objs.Contents() == Looked(old(objs.Contents()), idx)
      ensures forall n :: n in objs.nodes ==> n in old(objs.nodes) || fresh(n)
      ensures host[..] == if CopiedAtUnmap(b.acc) then WriteBack(fbtm[..], old(host[..]), b) else old(host[..])
    {
      hide IndexOf, Has, Looked, Distinct, AlignBo, List<Bufo>.Contents, WriteBack, Freed, Record;
      b := Locate(objs, idx);
      if b.acc.write && !b.acc.explicit {
        WrFlushBufObj(b);
      }
    }

    // szUsedBuf goes down when the record is the top of the stack, and to 0 with the last one.
    method UnmapRet(b: Bufo)
      requires Valid()
      modifies this`szUsedBuf, objs, objs.nodes
      ensures Valid()
      ensures objs.Contents() == Freed(old(objs.Contents()), b.idx)
      ensures szUsedBuf == Released(old(objs.Contents()), old(szUsedBuf), b)
    {
      hide Distinct, AlignBo, List<Bufo>.Contents, Freed;
      if szUsedBuf == b.mused + AlignBo(b.mapsz) {
        szUsedBuf := szUsedBuf - AlignBo(b.mapsz);
      }
      var left := FreeBufObj(objs, b.idx);
      if left == 0 {
        szUsedBuf := 0;
      }
    }
  }
}
