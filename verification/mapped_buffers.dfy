/**
 Buffer objects mapped through the shadow: the guest writes a copy on a stack at the top of
 a shared window, and the host copies it back on flush or unmap. `Step` is what the host
 does; `RefStep` is a machine where the guest writes the mapped memory itself. Every legal
 run keeps the two coupled, so the copying cannot be seen.
 */
module MappedBuffers {
  import opened Words
  import opened BufObj
  import opened HeapList
  import opened Memory

  const MGLFBT_SIZE := 0x200_0000

  datatype Op =
    | Map(idx: int, hva: nat, size: nat, acc: MapAccess, ranged: bool)
    | Write(idx: int, pos: nat, v: Byte)
    | Flush(idx: int, off: nat, len: nat, apple: bool)
    | Unmap(idx: int)

  // ---------- the host ----------

  // list and used: the mapped buffers and the bytes of stack in use; fbt: the shared
  // window; host: the host's memory, with the buffers' own storage in it.
  datatype State = State(list: seq<Bufo>, used: nat, fbt: seq<Byte>, host: seq<Byte>)

  // The record of a mapping at the current stack height; a listed one is written over.
  function Entered(list: seq<Bufo>, used: nat, op: Op): (b: Bufo)
    requires op.Map? && used <= MGLFBT_SIZE
    ensures b.idx == op.idx
  {
    Record(list, op.idx).(hva := op.hva, gpa := MGLFBT_SIZE - used, mused := used, mapsz := op.size,
                          offst := 0, range := if op.ranged then op.size else 0, acc := op.acc)
  }

  // The record after a flush; the APPLE form marks the mapping explicit.
  function Marked(b: Bufo, op: Op): Bufo
    requires op.Flush?
  {
    b.(offst := op.off, range := op.len, acc := if op.apple then b.acc.(explicit := true) else b.acc)
  }

  // The record replaces the one of its index, or is added at the end.
  function Put(s: seq<Bufo>, b: Bufo): seq<Bufo> {
    var i := IndexOf(s, b.idx);
    if i < |s| then s[i := b] else s + [b]
  }

  // First byte of a record's shadow.
  function Base(b: Bufo): int {
    b.gpa - AlignBo(b.mapsz)
  }

  // Bytes a flush copies, from offset offst on.
  function CopySize(b: Bufo): int {
    if b.range != 0 then b.range else b.mapsz - b.offst
  }

  // The copy of a record stays inside its shadow and its buffer.
  predicate CopyFits(b: Bufo, host: seq<Byte>) {
    && 0 <= CopySize(b) && b.offst + CopySize(b) <= b.mapsz
    && (b.hva != 0 ==> 0 <= Base(b) && b.gpa <= MGLFBT_SIZE && b.hva + b.mapsz <= |host|)
  }

  // wrFlushBufObj
  function WriteBack(fbt: seq<Byte>, host: seq<Byte>, b: Bufo): (r: seq<Byte>)
    requires |fbt| == MGLFBT_SIZE && CopyFits(b, host)
    ensures |r| == |host|
  {
    AlignBoBounds(b.mapsz);
    if b.hva != 0 then
      Patched(host, b.hva + b.offst, fbt[Base(b) + b.offst..Base(b) + b.offst + CopySize(b)])
    else host
  }

  predicate CopiedAtUnmap(acc: MapAccess) {
    acc.write && !acc.explicit
  }

  // The stack height after the record b of the list is released.
  function Released(list: seq<Bufo>, used: nat, b: Bufo): nat {
    var u := if used == b.mused + AlignBo(b.mapsz) then used - AlignBo(b.mapsz) else used;
    if Freed(list, b.idx) == [] then 0 else u
  }

  // What the shared memory and the mapped record allow the code to do without a fault.
  predicate Enabled(s: State, op: Op) {
    && |s.fbt| == MGLFBT_SIZE
    && match op
       case Map(_, hva, size, _, _) =>
         && s.used + AlignBo(size) <= MGLFBT_SIZE
         && (hva != 0 ==> hva + size <= |s.host|)
       case Write(idx, pos, _) =>
         Has(s.list, idx) && var b := Record(s.list, idx);
         pos < b.mapsz && 0 <= Base(b) && b.gpa <= MGLFBT_SIZE
       case Flush(idx, off, len, _) =>
         CopyFits(Marked(Record(s.list, idx), op), s.host)
       case Unmap(idx) =>
         CopiedAtUnmap(Record(s.list, idx).acc) ==> CopyFits(Record(s.list, idx), s.host)
  }

  function Step(s: State, op: Op): State
    requires Enabled(s, op)
  {
    match op
    case Map(idx, hva, size, _, _) =>
      AlignBoBounds(size);
      var b := Entered(s.list, s.used, op);
      State(Put(s.list, b), s.used + AlignBo(size),
        if hva != 0 then Patched(s.fbt, Base(b), s.host[hva..hva + size]) else s.fbt, s.host)
    case Write(idx, pos, v) =>
      AlignBoBounds(Record(s.list, idx).mapsz);
      s.(fbt := s.fbt[Base(Record(s.list, idx)) + pos := v])
    case Flush(idx, off, len, _) =>
      var b := Marked(Record(s.list, idx), op);
      s.(list := Put(s.list, b), host := WriteBack(s.fbt, s.host, b))
    case Unmap(idx) =>
      var b := Record(s.list, idx);
      State(Freed(s.list, idx), Released(s.list, s.used, b), s.fbt,
        if CopiedAtUnmap(b.acc) then WriteBack(s.fbt, s.host, b) else s.host)
  }

  // ---------- the reference ----------

  // view: what an explicit-flush or read-only mapping has that the host memory may not.
  datatype RefMap = RefMap(hva: nat, size: nat, acc: MapAccess, view: seq<Byte>)

  datatype Ref = Ref(host: seq<Byte>, maps: map<int, RefMap>)

  predicate RefEnabled(r: Ref, op: Op) {
    match op
    case Map(_, hva, size, _, _) => hva != 0 ==> hva + size <= |r.host|
    case Write(idx, pos, _) =>
      idx in r.maps ==> var m := r.maps[idx]; pos < m.size == |m.view| && m.hva + m.size <= |r.host|
    case Flush(idx, off, len, _) =>
      idx in r.maps ==> var m := r.maps[idx]; off + len <= m.size == |m.view| && m.hva + m.size <= |r.host|
    case Unmap(_) => true
  }

  // A failed mapping (address 0) is none. Writes through a plain write mapping land in the
  // host memory; through any other, in its view; a flush of an explicit mapping copies the
  // flushed range and nothing else does.
  function RefStep(r: Ref, op: Op): Ref
    requires RefEnabled(r, op)
  {
    match op
    case Map(idx, hva, size, acc, _) =>
      if hva == 0 then r else r.(maps := r.maps[idx := RefMap(hva, size, acc, r.host[hva..hva + size])])
    case Write(idx, pos, v) =>
      if idx !in r.maps then r
      else
        var m := r.maps[idx];
        if CopiedAtUnmap(m.acc) then r.(host := r.host[m.hva + pos := v])
        else r.(maps := r.maps[idx := m.(view := m.view[pos := v])])
    case Flush(idx, off, len, _) =>
      if idx in r.maps && r.maps[idx].acc.explicit then
        var m := r.maps[idx];
        r.(host := Patched(r.host, m.hva + off, m.view[off..off + len]))
      else r
    case Unmap(idx) => r.(maps := r.maps - {idx})
  }

  // ---------- the coupling ----------

  // Non-empty stack regions of two records share no byte.
  ghost predicate RegionsApart(a: Bufo, b: Bufo) {
    a.mapsz > 0 && b.mapsz > 0 ==>
      a.mused + AlignBo(a.mapsz) <= b.mused || b.mused + AlignBo(b.mapsz) <= a.mused
  }

  ghost predicate BuffersApart(a: Bufo, b: Bufo) {
    a.hva != 0 && b.hva != 0 ==> a.hva + a.mapsz <= b.hva || b.hva + b.mapsz <= a.hva
  }

  ghost predicate Inside(b: Bufo, s: State) {
    && b.gpa == MGLFBT_SIZE - b.mused && b.mused + AlignBo(b.mapsz) <= MGLFBT_SIZE
    && (b.mapsz > 0 ==> b.mused + AlignBo(b.mapsz) <= s.used)
    && (b.hva != 0 ==> b.hva + b.mapsz <= |s.host|)
    && (!b.acc.explicit ==> b.offst == 0 && (b.range == 0 || b.range == b.mapsz))
    && (b.acc.explicit ==> b.acc.write)
  }

  ghost predicate AllInside(s: State) {
    forall b :: b in s.list ==> Inside(b, s)
  }

  ghost predicate AllApart(s: State) {
    forall a, b :: a in s.list && b in s.list && a.idx != b.idx ==> RegionsApart(a, b) && BuffersApart(a, b)
  }

  // The stack allocator's invariant.
  ghost predicate StackSafe(s: State) {
    && |s.fbt| == MGLFBT_SIZE && s.used <= MGLFBT_SIZE
    && UniqueIdx(s.list) && AllInside(s) && AllApart(s)
    && (s.list == [] ==> s.used == 0)
  }

  // The reference has a mapping for the record.
  ghost predicate Known(b: Bufo, r: Ref) {
    && b.idx in r.maps && var m := r.maps[b.idx];
    && m.hva == b.hva && m.size == b.mapsz == |m.view| && m.acc == b.acc && b.hva + b.mapsz <= |r.host|
  }

  // Byte k of a mapping: in the shadow, and as the guest sees it in the reference.
  function ShadowByte(b: Bufo, k: nat, s: State): Byte
    requires |s.fbt| == MGLFBT_SIZE && 0 <= Base(b) && b.gpa <= MGLFBT_SIZE && k < b.mapsz
  {
    AlignBoBounds(b.mapsz);
    s.fbt[Base(b) + k]
  }

  ghost function RefByte(b: Bufo, k: nat, r: Ref): Byte
    requires Known(b, r) && k < b.mapsz
  {
    if CopiedAtUnmap(b.acc) then r.host[b.hva + k] else r.maps[b.idx].view[k]
  }

  // The shadow of a mapping holds what the guest would see in the reference.
  ghost predicate Seen(b: Bufo, s: State, r: Ref)
    requires |s.fbt| == MGLFBT_SIZE && Inside(b, s)
  {
    b.hva != 0 ==> Known(b, r) && forall k :: 0 <= k < b.mapsz ==> ShadowByte(b, k, s) == RefByte(b, k, r)
  }

  // Address p of the host memory is waiting for the copy of a plain write mapping.
  ghost predicate Pending(b: Bufo, p: int) {
    b.hva != 0 && CopiedAtUnmap(b.acc) && b.hva <= p < b.hva + b.mapsz
  }

  ghost predicate HostAgrees(s: State, r: Ref) {
    && |r.host| == |s.host|
    && forall p :: 0 <= p < |s.host| && (forall b :: b in s.list ==> !Pending(b, p)) ==> s.host[p] == r.host[p]
  }

  ghost predicate Coupled(s: State, r: Ref) {
    && StackSafe(s) && HostAgrees(s, r)
    && (forall b :: b in s.list ==> Seen(b, s, r))
    && (forall i :: i in r.maps ==> Has(s.list, i) && Record(s.list, i).hva != 0)
  }

  // ---------- legal calls ----------

  // Maps are of unmapped buffers with storage of their own and fit on the stack; writes are
  // inside a mapping; flushes are of a non-empty range of an explicit mapping.
  ghost predicate Legal(s: State, op: Op) {
    match op
    case Map(idx, hva, size, acc, _) =>
      && !Has(s.list, idx) && (acc.explicit ==> acc.write)
      && s.used + AlignBo(size) <= MGLFBT_SIZE
      && (hva != 0 ==> hva + size <= |s.host|)
      && forall b :: b in s.list ==> BuffersApart(b, Zeroed(idx).(hva := hva, mapsz := size))
    case Write(idx, pos, _) => Has(s.list, idx) && pos < Record(s.list, idx).mapsz
    case Flush(idx, off, len, _) =>
      && Has(s.list, idx) && Record(s.list, idx).acc.explicit
      && 0 < len && off + len <= Record(s.list, idx).mapsz
    case Unmap(_) => true
  }

  // ---------- the list by membership ----------

  lemma MembersPut(s: seq<Bufo>, b: Bufo)
    requires UniqueIdx(s)
    ensures UniqueIdx(Put(s, b)) && Put(s, b) != []
    ensures forall x :: x in Put(s, b) <==> x == b || (x in s && x.idx != b.idx)
  {
    var i, r := IndexOf(s, b.idx), Put(s, b);
    forall x | x in s && x.idx != b.idx ensures x in r {
      var k :| 0 <= k < |s| && s[k] == x;
      assert r[k] == x;
    }
    assert r[i] == b;
    forall x | x in r && x != b ensures x in s && x.idx != b.idx {
      var k :| 0 <= k < |r| && r[k] == x;
      assert s[k] == x;
    }
  }

  lemma MembersFreed(s: seq<Bufo>, idx: int)
    requires UniqueIdx(s)
    ensures UniqueIdx(Freed(s, idx))
    ensures forall x :: x in Freed(s, idx) <==> x in s && x.idx != idx
  {
    var i, r := IndexOf(s, idx), Freed(s, idx);
    FreedRefinesMap(s, idx);
    hide AsMap, IndexOf, Without;
    forall x | x in s && x.idx != idx ensures x in r {
      var k :| 0 <= k < |s| && s[k] == x;
      assert x == if k < i then r[k] else r[k - 1];
    }
    forall x | x in r ensures x in s && x.idx != idx {
      var k :| 0 <= k < |r| && r[k] == x;
      assert r[k] == if k < i then s[k] else s[k + 1];
      HasIff(r, idx);
    }
  }

  lemma Members(s: seq<Bufo>)
    requires UniqueIdx(s)
    ensures forall x :: x in s ==> Has(s, x.idx) && Record(s, x.idx) == x
    ensures forall i :: Has(s, i) ==> Record(s, i) in s && Record(s, i).idx == i
  {
    forall x | x in s ensures Has(s, x.idx) && Record(s, x.idx) == x {
      var k :| 0 <= k < |s| && s[k] == x;
      RecordAt(s, k);
    }
  }

  lemma HasMember(s: seq<Bufo>, i: int)
    ensures Has(s, i) <==> exists x :: x in s && x.idx == i
  {
    if Has(s, i) {
      assert s[IndexOf(s, i)] in s;
    }
    if exists x :: x in s && x.idx == i {
      var x :| x in s && x.idx == i;
      var k :| 0 <= k < |s| && s[k] == x;
    }
  }

  // ---------- the stack ----------

  lemma LegalEnabled(s: State, op: Op)
    requires StackSafe(s) && Legal(s, op)
    ensures Enabled(s, op)
  {
    Members(s.list);
    hide IndexOf, UniqueIdx, AlignBo, Record, Has;
    if !op.Map? && !Has(s.list, op.idx) {
      Missing(s.list, op.idx);
    }
    if !op.Map? && Has(s.list, op.idx) {
      assert Inside(Record(s.list, op.idx), s);
    }
  }

  lemma Missing(s: seq<Bufo>, idx: int)
    requires !Has(s, idx)
    ensures Record(s, idx) == Zeroed(idx) && Freed(s, idx) == s
  {
  }

  lemma StackMap(s: State, op: Op)
    requires StackSafe(s) && Legal(s, op) && op.Map? && Enabled(s, op)
    ensures StackSafe(Step(s, op))
  {
    var b, t := Entered(s.list, s.used, op), Step(s, op);
    MembersPut(s.list, b);
    HasMember(s.list, op.idx);
    AlignBoBounds(op.size);
    hide IndexOf, UniqueIdx, AlignBo, Put, Patched;
    forall x | x in t.list ensures Inside(x, t) {
      if x != b {
        assert Inside(x, s);
      }
    }
    forall x, y | x in t.list && y in t.list && x.idx != y.idx ensures RegionsApart(x, y) && BuffersApart(x, y) {
      if x == b {
        assert Inside(y, s);
      } else if y == b {
        assert Inside(x, s);
      }
    }
  }

  lemma StackWrite(s: State, op: Op)
    requires StackSafe(s) && op.Write? && Enabled(s, op)
    ensures StackSafe(Step(s, op))
  {
    AlignBoBounds(Record(s.list, op.idx).mapsz);
    hide IndexOf, UniqueIdx, AlignBo, Has, Record;
    var t := Step(s, op);
    forall x | x in t.list ensures Inside(x, t) {
      assert Inside(x, s);
    }
  }

  lemma StackFlush(s: State, op: Op)
    requires StackSafe(s) && Legal(s, op) && op.Flush? && Enabled(s, op)
    ensures StackSafe(Step(s, op))
  {
    var b0 := Record(s.list, op.idx);
    var b, t := Marked(b0, op), Step(s, op);
    Members(s.list);
    MembersPut(s.list, b);
    hide IndexOf, UniqueIdx, AlignBo, Put, Has, Record, WriteBack;
    assert Inside(b0, s);
    forall x | x in t.list ensures Inside(x, t) {
      if x != b {
        assert Inside(x, s);
      }
    }
    forall x, y | x in t.list && y in t.list && x.idx != y.idx ensures RegionsApart(x, y) && BuffersApart(x, y) {
      var x', y' := if x == b then b0 else x, if y == b then b0 else y;
      assert RegionsApart(x', y') && BuffersApart(x', y');
    }
  }

  lemma StackUnmap(s: State, op: Op)
    requires StackSafe(s) && op.Unmap? && Enabled(s, op)
    ensures StackSafe(Step(s, op))
  {
    var b, t := Record(s.list, op.idx), Step(s, op);
    Members(s.list);
    MembersFreed(s.list, op.idx);
    AlignBoBounds(b.mapsz);
    if !Has(s.list, op.idx) {
      Missing(s.list, op.idx);
    }
    hide IndexOf, UniqueIdx, AlignBo, Freed, Has, Record, WriteBack;
    forall x | x in t.list ensures Inside(x, t) {
      assert Inside(x, s);
      AlignBoBounds(x.mapsz);
      if b in s.list {
        assert RegionsApart(x, b);
      }
    }
  }

  // Whatever the order of the unmaps, non-empty regions stay apart and below the stack
  // height, and an empty list means an empty stack.
  lemma StepStack(s: State, op: Op)
    requires StackSafe(s) && Legal(s, op)
    ensures Enabled(s, op) && StackSafe(Step(s, op))
  {
    LegalEnabled(s, op);
    hide Step, Legal, Enabled, StackSafe;
    match op
    case Map(_, _, _, _, _) => StackMap(s, op);
    case Write(_, _, _) => StackWrite(s, op);
    case Flush(_, _, _, _) => StackFlush(s, op);
    case Unmap(_) => StackUnmap(s, op);
  }

  // ---------- each step keeps the coupling ----------

  lemma LegalRefEnabled(s: State, r: Ref, op: Op)
    requires Coupled(s, r) && Legal(s, op)
    ensures RefEnabled(r, op)
  {
    Members(s.list);
    hide IndexOf, UniqueIdx, AlignBo, Has, Record;
    if !op.Map? && op.idx in r.maps {
      var b := Record(s.list, op.idx);
      assert Inside(b, s) && Seen(b, s, r);
    }
  }

  lemma ShadowsApart(a: Bufo, b: Bufo, s: State, x: nat, y: nat)
    requires Inside(a, s) && Inside(b, s) && RegionsApart(a, b) && x < a.mapsz && y < b.mapsz
    ensures Base(a) + x != Base(b) + y && 0 <= Base(a) && Base(a) + x < MGLFBT_SIZE
  {
    AlignBoBounds(a.mapsz);
    AlignBoBounds(b.mapsz);
    hide AlignBo;
  }

  // A record whose shadow and reference bytes stay is still seen right.
  lemma SeenKept(x: Bufo, s: State, r: Ref, t: State, u: Ref)
    requires |s.fbt| == |t.fbt| == MGLFBT_SIZE && Inside(x, s) && Inside(x, t) && Seen(x, s, r)
    requires x.hva != 0 ==> Known(x, u)
    requires x.hva != 0 ==> forall k :: 0 <= k < x.mapsz ==> ShadowByte(x, k, t) == ShadowByte(x, k, s)
    requires x.hva != 0 ==> forall k :: 0 <= k < x.mapsz ==> RefByte(x, k, u) == RefByte(x, k, r)
    ensures Seen(x, t, u)
  {
    hide ShadowByte, RefByte, Inside;
  }

  lemma MapSeenOld(s: State, r: Ref, op: Op, x: Bufo)
    requires Coupled(s, r) && Legal(s, op) && op.Map? && Enabled(s, op) && RefEnabled(r, op)
    requires x in s.list && x.idx != op.idx && Inside(x, Step(s, op))
    ensures Seen(x, Step(s, op), RefStep(r, op))
  {
    var t, u := Step(s, op), RefStep(r, op);
    assert Inside(x, s) && Seen(x, s, r);
    AlignBoBounds(op.size);
    AlignBoBounds(x.mapsz);
    hide IndexOf, UniqueIdx, AlignBo, Put, Has, Legal, Enabled, Coupled;
    SeenKept(x, s, r, t, u);
  }

  lemma MapSeenNew(s: State, r: Ref, op: Op)
    requires Coupled(s, r) && Legal(s, op) && op.Map? && Enabled(s, op) && RefEnabled(r, op)
    requires Inside(Entered(s.list, s.used, op), Step(s, op))
    ensures Seen(Entered(s.list, s.used, op), Step(s, op), RefStep(r, op))
  {
    var b, t, u := Entered(s.list, s.used, op), Step(s, op), RefStep(r, op);
    if op.hva != 0 {
      AlignBoBounds(op.size);
      assert t.fbt == Patched(s.fbt, Base(b), s.host[op.hva..op.hva + op.size]);
      assert HostAgrees(s, r) && Known(b, u);
      hide IndexOf, UniqueIdx, AlignBo, Put, Has, Record, StackSafe, Step, RefStep, Coupled, Legal, Enabled, RefEnabled,
          Entered;
      forall k | 0 <= k < op.size ensures ShadowByte(b, k, t) == RefByte(b, k, u) {
        NothingPending(s, op, op.hva + k);
        assert s.host[op.hva + k] == r.host[op.hva + k];
      }
    }
  }

  // The new shadow is below every other and holds what the host memory holds.
  lemma CoupledMap(s: State, r: Ref, op: Op)
    requires Coupled(s, r) && Legal(s, op) && op.Map? && Enabled(s, op) && RefEnabled(r, op)
    requires StackSafe(Step(s, op))
    ensures Coupled(Step(s, op), RefStep(r, op))
  {
    var b, t, u := Entered(s.list, s.used, op), Step(s, op), RefStep(r, op);
    MembersPut(s.list, b);
    HasMember(s.list, op.idx);
    forall i | i in u.maps ensures Has(t.list, i) && Record(t.list, i).hva != 0 {
      MapKept(s, r, op, i);
    }
    forall x | x in t.list ensures Seen(x, t, u) {
      if x == b {
        MapSeenNew(s, r, op);
      } else {
        MapSeenOld(s, r, op, x);
      }
    }
    hide Seen, IndexOf, UniqueIdx, AlignBo, Put, Has, Record, Legal, Enabled;
    forall p | 0 <= p < |t.host| && (forall x :: x in t.list ==> !Pending(x, p)) ensures t.host[p] == u.host[p] {
      assert forall x :: x in s.list ==> x in t.list;
    }
  }

  lemma MapKept(s: State, r: Ref, op: Op, i: int)
    requires Coupled(s, r) && Legal(s, op) && op.Map? && Enabled(s, op) && RefEnabled(r, op)
    requires i in RefStep(r, op).maps
    ensures Has(Step(s, op).list, i) && Record(Step(s, op).list, i).hva != 0
  {
    var b := Entered(s.list, s.used, op);
    Members(s.list);
    MembersPut(s.list, b);
    Members(Put(s.list, b));
    HasMember(Put(s.list, b), i);
    hide IndexOf, UniqueIdx, AlignBo, Put, Has, Record;
    if i == op.idx && op.hva != 0 {
      assert b in Put(s.list, b);
    } else {
      var x := Record(s.list, i);
      assert x in Put(s.list, b);
    }
  }

  lemma NothingPending(s: State, op: Op, p: int)
    requires Legal(s, op) && op.Map? && op.hva != 0 && op.hva <= p < op.hva + op.size
    ensures forall b :: b in s.list ==> !Pending(b, p)
  {
  }

  lemma WriteSeenOther(s: State, r: Ref, op: Op, x: Bufo)
    requires Coupled(s, r) && Legal(s, op) && op.Write? && Enabled(s, op) && RefEnabled(r, op)
    requires x in s.list && x.idx != op.idx && Inside(x, Step(s, op))
    ensures Seen(x, Step(s, op), RefStep(r, op))
  {
    var b, t, u := Record(s.list, op.idx), Step(s, op), RefStep(r, op);
    Members(s.list);
    AlignBoBounds(b.mapsz);
    AlignBoBounds(x.mapsz);
    assert Inside(b, s) && Seen(b, s, r) && Inside(x, s) && Seen(x, s, r) && BuffersApart(x, b) && RegionsApart(x, b);
    hide IndexOf, UniqueIdx, AlignBo, Has, Record, Coupled;
    forall k | 0 <= k < x.mapsz ensures ShadowByte(x, k, t) == ShadowByte(x, k, s) {
      ShadowsApart(x, b, s, k, op.pos);
    }
    SeenKept(x, s, r, t, u);
  }

  lemma WriteSeen(s: State, r: Ref, op: Op)
    requires Coupled(s, r) && Legal(s, op) && op.Write? && Enabled(s, op) && RefEnabled(r, op)
    requires Inside(Record(s.list, op.idx), Step(s, op))
    ensures Seen(Record(s.list, op.idx), Step(s, op), RefStep(r, op))
  {
    var b, t, u := Record(s.list, op.idx), Step(s, op), RefStep(r, op);
    Members(s.list);
    AlignBoBounds(b.mapsz);
    assert Inside(b, s) && Seen(b, s, r);
    hide IndexOf, UniqueIdx, AlignBo, Has, Record, Coupled;
    if b.hva != 0 {
      forall k | 0 <= k < b.mapsz ensures ShadowByte(b, k, t) == RefByte(b, k, u) {
        assert ShadowByte(b, k, s) == RefByte(b, k, r);
      }
    }
  }

  lemma CoupledWrite(s: State, r: Ref, op: Op)
    requires Coupled(s, r) && Legal(s, op) && op.Write? && Enabled(s, op) && RefEnabled(r, op)
    requires StackSafe(Step(s, op))
    ensures Coupled(Step(s, op), RefStep(r, op))
  {
    var b, t, u := Record(s.list, op.idx), Step(s, op), RefStep(r, op);
    Members(s.list);
    assert t.list == s.list && Inside(b, t);
    forall x | x in t.list ensures Seen(x, t, u) {
      assert Inside(x, t);
      if x == b {
        WriteSeen(s, r, op);
      } else {
        WriteSeenOther(s, r, op, x);
      }
    }
    assert Seen(b, s, r);
    hide Seen, IndexOf, UniqueIdx, AlignBo, Has, Record;
    forall p | 0 <= p < |t.host| && (forall x :: x in t.list ==> !Pending(x, p)) ensures t.host[p] == u.host[p] {
      assert !Pending(b, p);
    }
  }

  lemma FlushSeen(s: State, r: Ref, op: Op, x0: Bufo, x: Bufo)
    requires Coupled(s, r) && Legal(s, op) && op.Flush? && Enabled(s, op) && RefEnabled(r, op)
    requires x0 in s.list && Inside(x, Step(s, op))
    requires x == if x0.idx == op.idx then Marked(x0, op) else x0
    ensures Seen(x, Step(s, op), RefStep(r, op))
  {
    var b, t, u := Record(s.list, op.idx), Step(s, op), RefStep(r, op);
    Members(s.list);
    AlignBoBounds(x.mapsz);
    assert Inside(b, s) && Inside(x0, s) && Seen(x0, s, r) && Seen(b, s, r) &&
        (x0.idx != b.idx ==> BuffersApart(x0, b));
    hide IndexOf, UniqueIdx, AlignBo, Has, Record, Coupled, WriteBack, Put, Legal, CopyFits;
    assert t.fbt == s.fbt && u.maps == r.maps && |u.host| == |r.host|;
    if x.hva != 0 {
      forall k | 0 <= k < x.mapsz ensures ShadowByte(x, k, t) == RefByte(x, k, u) {
        assert ShadowByte(x0, k, s) == RefByte(x0, k, r);
      }
    }
  }

  lemma FlushHost(s: State, r: Ref, op: Op, p: nat)
    requires Coupled(s, r) && Legal(s, op) && op.Flush? && Enabled(s, op) && RefEnabled(r, op)
    requires p < |s.host| && s.host[p] == r.host[p]
    ensures Step(s, op).host[p] == RefStep(r, op).host[p]
  {
    var b := Record(s.list, op.idx);
    Members(s.list);
    AlignBoBounds(b.mapsz);
    assert Inside(b, s) && Seen(b, s, r) && (op.idx in r.maps <==> b.hva != 0);
    hide IndexOf, UniqueIdx, AlignBo, Has, Record, Coupled, Put;
    if b.hva != 0 && b.hva + op.off <= p < b.hva + op.off + op.len {
      var k := p - b.hva;
      assert ShadowByte(b, k, s) == RefByte(b, k, r);
    }
  }

  lemma CoupledFlush(s: State, r: Ref, op: Op)
    requires Coupled(s, r) && Legal(s, op) && op.Flush? && Enabled(s, op) && RefEnabled(r, op)
    requires StackSafe(Step(s, op))
    ensures Coupled(Step(s, op), RefStep(r, op))
  {
    var b0 := Record(s.list, op.idx);
    var b, t, u := Marked(b0, op), Step(s, op), RefStep(r, op);
    Members(s.list);
    MembersPut(s.list, b);
    Members(Put(s.list, b));
    hide IndexOf, UniqueIdx, AlignBo, Put, Has, Record, WriteBack;
    assert b in t.list && |t.host| == |s.host| && |u.host| == |r.host| && u.maps == r.maps;
    forall x | x in t.list ensures Seen(x, t, u) {
      assert Inside(x, t);
      FlushSeen(s, r, op, if x == b then b0 else x, x);
    }
    hide Seen;
    forall i | i in u.maps ensures Has(t.list, i) && Record(t.list, i).hva != 0 {
      var x := Record(s.list, i);
      assert x in s.list;
      assert i != op.idx ==> x in t.list;
    }
    forall p | 0 <= p < |t.host| && (forall x :: x in t.list ==> !Pending(x, p)) ensures t.host[p] == u.host[p] {
      forall x | x in s.list ensures !Pending(x, p) {
        assert x.idx != op.idx ==> x in t.list;
      }
      FlushHost(s, r, op, p);
    }
  }

  lemma UnmapHost(s: State, r: Ref, op: Op, p: nat)
    requires Coupled(s, r) && op.Unmap? && Enabled(s, op) && p < |s.host|
    ensures var b := Record(s.list, op.idx);
            Step(s, op).host[p] == if b in s.list && Pending(b, p) then r.host[p] else s.host[p]
  {
    var b := Record(s.list, op.idx);
    if Has(s.list, op.idx) {
      Members(s.list);
      assert Inside(b, s) && Seen(b, s, r);
      UnmapByte(s, r, op, b, p);
    } else {
      Missing(s.list, op.idx);
      assert b !in s.list;
      hide Coupled, Seen, Inside, Freed, Released, AlignBo, Has;
    }
  }

  lemma WriteBackAt(fbt: seq<Byte>, host: seq<Byte>, b: Bufo, p: nat)
    requires |fbt| == MGLFBT_SIZE && CopyFits(b, host) && b.hva != 0 && p < |host|
    ensures b.hva + b.offst <= p < b.hva + b.offst + CopySize(b) ==>
              0 <= Base(b) + (p - b.hva) < |fbt| && WriteBack(fbt, host, b)[p] == fbt[Base(b) + (p - b.hva)]
    ensures !(b.hva + b.offst <= p < b.hva + b.offst + CopySize(b)) ==> WriteBack(fbt, host, b)[p] == host[p]
  {
    AlignBoBounds(b.mapsz);
    hide AlignBo, Patched;
  }

  lemma UnmapByte(s: State, r: Ref, op: Op, b: Bufo, p: nat)
    requires op.Unmap? && Enabled(s, op) && b == Record(s.list, op.idx) && b in s.list && p < |s.host| == |r.host|
    requires |s.fbt| == MGLFBT_SIZE && Inside(b, s) && Seen(b, s, r)
    ensures Step(s, op).host[p] == if Pending(b, p) then r.host[p] else s.host[p]
  {
    AlignBoBounds(b.mapsz);
    if b.hva != 0 && CopiedAtUnmap(b.acc) {
      WriteBackAt(s.fbt, s.host, b, p);
    }
    hide AlignBo, Freed, Has, Record, Released, WriteBack;
    if Pending(b, p) {
      assert ShadowByte(b, p - b.hva, s) == RefByte(b, p - b.hva, r);
    }
  }

  lemma CoupledUnmap(s: State, r: Ref, op: Op)
    requires Coupled(s, r) && op.Unmap? && Enabled(s, op) && RefEnabled(r, op)
    requires StackSafe(Step(s, op))
    ensures Coupled(Step(s, op), RefStep(r, op))
  {
    var b, t, u := Record(s.list, op.idx), Step(s, op), RefStep(r, op);
    Members(s.list);
    MembersFreed(s.list, op.idx);
    Members(Freed(s.list, op.idx));
    if !Has(s.list, op.idx) {
      Missing(s.list, op.idx);
    }
    hide IndexOf, UniqueIdx, AlignBo, Freed, Has, Record, Released, WriteBack;
    assert |t.host| == |s.host| && t.fbt == s.fbt && u.host == r.host;
    forall x | x in t.list ensures Seen(x, t, u) {
      assert Inside(x, t) && Inside(x, s) && Seen(x, s, r);
      SeenKept(x, s, r, t, u);
    }
    hide Seen;
    forall i | i in u.maps ensures Has(t.list, i) && Record(t.list, i).hva != 0 {
      var x := Record(s.list, i);
      assert x in s.list && x in t.list;
    }
    forall p | 0 <= p < |t.host| && (forall x :: x in t.list ==> !Pending(x, p)) ensures t.host[p] == u.host[p] {
      UnmapHost(s, r, op, p);
      if !(b in s.list && Pending(b, p)) {
        forall x | x in s.list ensures !Pending(x, p) {
          assert x != b ==> x in t.list;
        }
      }
    }
  }

  lemma StepCoupled(s: State, r: Ref, op: Op)
    requires Coupled(s, r) && Legal(s, op)
    ensures Enabled(s, op) && RefEnabled(r, op) && Coupled(Step(s, op), RefStep(r, op))
  {
    StepStack(s, op);
    LegalRefEnabled(s, r, op);
    hide Step, RefStep, Legal, Enabled, RefEnabled, StackSafe, Coupled;
    match op
    case Map(_, _, _, _, _) => CoupledMap(s, r, op);
    case Write(_, _, _) => CoupledWrite(s, r, op);
    case Flush(_, _, _, _) => CoupledFlush(s, r, op);
    case Unmap(_) => CoupledUnmap(s, r, op);
  }

  // ---------- runs ----------

  ghost predicate LegalRun(s: State, ops: seq<Op>)
    requires StackSafe(s)
    decreases |ops|
  {
    ops != [] ==> Legal(s, ops[0]) && (StepStack(s, ops[0]); LegalRun(Step(s, ops[0]), ops[1..]))
  }

  ghost function Run(s: State, ops: seq<Op>): State
    requires StackSafe(s) && LegalRun(s, ops)
    decreases |ops|
  {
    if ops == [] then s else (StepStack(s, ops[0]); Run(Step(s, ops[0]), ops[1..]))
  }

  ghost function RefRun(s: State, r: Ref, ops: seq<Op>): Ref
    requires Coupled(s, r) && LegalRun(s, ops)
    decreases |ops|
  {
    if ops == [] then r else (StepCoupled(s, r, ops[0]); RefRun(Step(s, ops[0]), RefStep(r, ops[0]), ops[1..]))
  }

  // In every reachable state the stack is safe and the guest sees the reference's bytes.
  lemma {:induction false} RunCoupled(s: State, r: Ref, ops: seq<Op>)
    requires Coupled(s, r) && LegalRun(s, ops)
    ensures StackSafe(Run(s, ops)) && Coupled(Run(s, ops), RefRun(s, r, ops))
    decreases |ops|
  {
    hide HostAgrees, StackSafe, Legal, Seen, Step, RefStep;
    if ops == [] {
    } else {
      StepCoupled(s, r, ops[0]);
      StepStack(s, ops[0]);
      RunCoupled(Step(s, ops[0]), RefStep(r, ops[0]), ops[1..]);
    }
  }

  // A new context: no records, no stack (ContextCreateCommon).
  function Created(fbt: seq<Byte>, host: seq<Byte>): State {
    State([], 0, fbt, host)
  }

  lemma CreatedCoupled(fbt: seq<Byte>, host: seq<Byte>)
    requires |fbt| == MGLFBT_SIZE
    ensures Coupled(Created(fbt, host), Ref(host, map[]))
  {
  }

  // One-copy mapping equals direct mapping: once no plain write mapping is left, the host
  // memory is what the guest would have left by writing it itself.
  lemma OneCopyIsDirect(fbt: seq<Byte>, host: seq<Byte>, ops: seq<Op>)
    requires |fbt| == MGLFBT_SIZE && LegalRun(Created(fbt, host), ops)
    requires forall b :: b in Run(Created(fbt, host), ops).list ==> !CopiedAtUnmap(b.acc)
    ensures Coupled(Created(fbt, host), Ref(host, map[]))
    ensures Run(Created(fbt, host), ops).host == RefRun(Created(fbt, host), Ref(host, map[]), ops).host
  {
    CreatedCoupled(fbt, host);
    RunCoupled(Created(fbt, host), Ref(host, map[]), ops);
    var s, r := Run(Created(fbt, host), ops), RefRun(Created(fbt, host), Ref(host, map[]), ops);
    hide Run, RefRun, LegalRun, StackSafe, Seen;
    assert HostAgrees(s, r);
    assert forall p :: 0 <= p < |s.host| ==> s.host[p] == r.host[p];
  }

  // ---------- the stack over nested mappings ----------

  // A run in which every mapping is released after those made inside it, with writes and flushes anywhere.
  datatype Nest = Empty | Within(op: Op, after: Nest) | Mapping(m: Op, inner: Nest, rest: Nest)

  ghost function Flat(n: Nest): seq<Op> {
    match n
    case Empty => []
    case Within(op, after) => [op] + Flat(after)
    case Mapping(m, inner, rest) => [m] + (Flat(inner) + ([Unmap(m.idx)] + Flat(rest)))
  }

  predicate NestForm(n: Nest) {
    match n
    case Empty => true
    case Within(op, after) => (op.Write? || op.Flush?) && NestForm(after)
    case Mapping(m, inner, rest) => m.Map? && NestForm(inner) && NestForm(rest)
  }

  lemma {:induction false} RunAppend(s: State, a: seq<Op>, b: seq<Op>)
    requires StackSafe(s) && LegalRun(s, a + b)
    ensures LegalRun(s, a) && StackSafe(Run(s, a)) && LegalRun(Run(s, a), b)
    ensures Run(s, a + b) == Run(Run(s, a), b)
    decreases |a|
  {
    hide StackSafe, Legal, Step;
    if a == [] {
      assert a + b == b;
    } else {
      assert (a + b)[1..] == a[1..] + b && (a + b)[0] == a[0];
      StepStack(s, a[0]);
      RunAppend(Step(s, a[0]), a[1..], b);
    }
  }

  lemma RunCons(s: State, op: Op, b: seq<Op>)
    requires StackSafe(s) && LegalRun(s, [op] + b)
    ensures Legal(s, op) && Enabled(s, op) && StackSafe(Step(s, op)) && LegalRun(Step(s, op), b)
    ensures Run(s, [op] + b) == Run(Step(s, op), b)
  {
    hide StackSafe, Step;
    assert ([op] + b)[1..] == b;
    StepStack(s, op);
  }

  // The same mappings at the same places, whatever was flushed of them.
  ghost predicate SameStack(l: seq<Bufo>, r: seq<Bufo>) {
    |l| == |r| && forall k :: 0 <= k < |l| ==> Core(l[k]) == Core(r[k])
  }

  function Core(b: Bufo): Bufo {
    b.(offst := 0, range := 0)
  }

  // Reverse-order unmaps restore the stack height exactly, and the list but for what a flush
  // noted in the records that stay.
  lemma {:induction false} NestRestores(s: State, n: Nest)
    requires StackSafe(s) && NestForm(n) && LegalRun(s, Flat(n))
    ensures SameStack(Run(s, Flat(n)).list, s.list) && Run(s, Flat(n)).used == s.used
    decreases n
  {
    hide LegalRun;
    match n
    case Empty =>
    case Within(op, after) =>
      RunCons(s, op, Flat(after));
      if op.Flush? {
        FlushSame(s, op);
      }
      hide StackSafe, Put;
      NestRestores(Step(s, op), after);
    case Mapping(m, inner, rest) =>
      var b, out := Entered(s.list, s.used, m), [Unmap(m.idx)] + Flat(rest);
      RunCons(s, m, Flat(inner) + out);
      var t := Step(s, m);
      Appended(s, m);
      RunAppend(t, Flat(inner), out);
      var t' := Run(t, Flat(inner));
      RunCons(t', Unmap(m.idx), Flat(rest));
      hide StackSafe, Run, Released, Freed, Record, Has, Put, Entered;
      NestRestores(t, inner);
      Popped(s.list, s.used, b, t'.list);
      NestRestores(Step(t', Unmap(m.idx)), rest);
  }

  lemma FlushSame(s: State, op: Op)
    requires op.Flush? && Legal(s, op) && Enabled(s, op)
    ensures SameStack(Step(s, op).list, s.list)
  {
  }

  lemma Appended(s: State, op: Op)
    requires op.Map? && Legal(s, op) && Enabled(s, op)
    ensures Step(s, op).list == s.list + [Entered(s.list, s.used, op)]
    ensures Step(s, op).used == s.used + AlignBo(op.size)
    ensures Entered(s.list, s.used, op).mapsz == op.size && Entered(s.list, s.used, op).mused == s.used
  {
  }

  lemma Popped(list: seq<Bufo>, used: nat, b: Bufo, l: seq<Bufo>)
    requires !Has(list, b.idx) && b.mused == used && (list == [] ==> used == 0)
    requires SameStack(l, list + [b])
    ensures SameStack(Freed(l, b.idx), list)
    ensures Released(l, used + AlignBo(b.mapsz), Record(l, b.idx)) == used
  {
    var n := |list|;
    forall k | 0 <= k < n ensures l[k].idx != b.idx && Core(l[k]) == Core(list[k]) {
      assert Core(l[k]) == Core((list + [b])[k]);
    }
    assert Core(l[n]) == Core((list + [b])[n]);
    IndexOfIs(l, b.idx, n);
    FreedIs(l, b.idx, n);
    assert Without(l, n) == l[..n];
  }

  // ---------- when a copy is the right one ----------

  // A copy for a record is that of the n bytes from lo, whatever the shadow holds, exactly
  // when those are the bytes the record names.
  lemma CopyExact(b: Bufo, host: seq<Byte>, lo: nat, n: nat)
    requires CopyFits(b, host) && b.hva != 0 && lo + n <= b.mapsz
    ensures (forall fbt: seq<Byte> | |fbt| == MGLFBT_SIZE :: WriteBack(fbt, host, b) == CopyOf(fbt, host, b, lo, n))
       <==> (CopySize(b) == n && (n > 0 ==> b.offst == lo))
  {
    AlignBoBounds(b.mapsz);
    hide AlignBo;
    if CopySize(b) == n && (n > 0 ==> b.offst == lo) {
      forall fbt: seq<Byte> | |fbt| == MGLFBT_SIZE ensures WriteBack(fbt, host, b) == CopyOf(fbt, host, b, lo, n) {
        CopySame(fbt, b, host, lo, n);
      }
    } else {
      // some byte is in one range only
      var k: nat := if CopySize(b) > 0 && !(lo <= b.offst < lo + n) then b.offst
                    else if n > 0 && !(b.offst <= lo < b.offst + CopySize(b)) then lo
                    else if CopySize(b) > n then lo + n else b.offst + CopySize(b);
      assert (lo <= k < lo + n) != (b.offst <= k < b.offst + CopySize(b));
      CopyDiffers(b, host, lo, n, k);
    }
  }

  // The copy of the n shadow bytes from lo to their place in the buffer.
  function CopyOf(fbt: seq<Byte>, host: seq<Byte>, b: Bufo, lo: nat, n: nat): seq<Byte>
    requires |fbt| == MGLFBT_SIZE && CopyFits(b, host) && b.hva != 0 && lo + n <= b.mapsz
  {
    AlignBoBounds(b.mapsz);
    Patched(host, b.hva + lo, fbt[Base(b) + lo..Base(b) + lo + n])
  }

  lemma CopySame(fbt: seq<Byte>, b: Bufo, host: seq<Byte>, lo: nat, n: nat)
    requires |fbt| == MGLFBT_SIZE && CopyFits(b, host) && b.hva != 0 && lo + n <= b.mapsz
    requires CopySize(b) == n && (n > 0 ==> b.offst == lo)
    ensures WriteBack(fbt, host, b) == CopyOf(fbt, host, b, lo, n)
  {
    AlignBoBounds(b.mapsz);
  }

  // A shadow that differs from the host memory at byte k only is copied by one of the two.
  lemma CopyDiffers(b: Bufo, host: seq<Byte>, lo: nat, n: nat, k: nat)
    requires CopyFits(b, host) && b.hva != 0 && lo + n <= b.mapsz && k < b.mapsz
    requires (lo <= k < lo + n) != (b.offst <= k < b.offst + CopySize(b))
    ensures exists fbt: seq<Byte> :: |fbt| == MGLFBT_SIZE && WriteBack(fbt, host, b) != CopyOf(fbt, host, b, lo, n)
  {
    AlignBoBounds(b.mapsz);
    hide AlignBo;
    var v: Byte := if host[b.hva + k] == 0 then 1 else 0;
    var fbt: seq<Byte> := Filled(v, MGLFBT_SIZE);
    assert WriteBack(fbt, host, b)[b.hva + k] == if b.offst <= k < b.offst + CopySize(b) then v else host[b.hva + k];
    assert CopyOf(fbt, host, b, lo, n)[b.hva + k] == if lo <= k < lo + n then v else host[b.hva + k];
  }

  function Filled(v: Byte, n: nat): (r: seq<Byte>)
    ensures |r| == n && forall i :: 0 <= i < n ==> r[i] == v
  {
    seq(n, i => v)
  }

  // A flush copies exactly its range when the range is not empty; an empty one copies the
  // rest of the mapping, and is harmless only at its end.
  lemma FlushExact(b: Bufo, host: seq<Byte>, off: nat, len: nat)
    requires CopyFits(b.(offst := off, range := len), host) && b.hva != 0 && off + len <= b.mapsz
    ensures (forall fbt: seq<Byte> | |fbt| == MGLFBT_SIZE ::
               WriteBack(fbt, host, b.(offst := off, range := len)) ==
                   CopyOf(fbt, host, b.(offst := off, range := len), off, len))
       <==> len != 0 || off == b.mapsz
  {
    CopyExact(b.(offst := off, range := len), host, off, len);
  }

  // A flush and then an unmap, from any contents of the shared window.
  ghost function FlushThenUnmap(s: State, fbt: seq<Byte>, flush: Op): State
    requires StackSafe(s) && |fbt| == MGLFBT_SIZE && OfPlainMapping(s, flush)
  {
    FlushKeepsEnabled(s, fbt, flush);
    Step(Step(s.(fbt := fbt), flush), Unmap(flush.idx))
  }

  // The flush is of a plain write mapping and inside it.
  ghost predicate OfPlainMapping(s: State, flush: Op) {
    && flush.Flush? && Has(s.list, flush.idx)
    && var b := Record(s.list, flush.idx);
    && CopiedAtUnmap(b.acc) && b.hva != 0 && flush.off + flush.len <= b.mapsz
  }

  lemma FlushKeepsEnabled(s: State, fbt: seq<Byte>, flush: Op)
    requires StackSafe(s) && |fbt| == MGLFBT_SIZE && OfPlainMapping(s, flush)
    ensures var t := s.(fbt := fbt); var b := Marked(Record(s.list, flush.idx), flush);
            && CopyFits(b, s.host) && Enabled(t, flush) && Enabled(Step(t, flush), Unmap(flush.idx))
            && Record(Step(t, flush).list, flush.idx) == b
  {
    var b := Marked(Record(s.list, flush.idx), flush);
    Members(s.list);
    assert Inside(Record(s.list, flush.idx), s);
    MembersPut(s.list, b);
    Members(Put(s.list, b));
    hide IndexOf, UniqueIdx, AlignBo, Put, Has, Record;
    assert b in Put(s.list, b);
  }

  // What the two copies publish together.
  lemma FlushThenUnmapHost(s: State, fbt: seq<Byte>, flush: Op)
    requires StackSafe(s) && |fbt| == MGLFBT_SIZE && OfPlainMapping(s, flush)
    ensures var b := Marked(Record(s.list, flush.idx), flush);
            CopyFits(b, s.host) && FlushThenUnmap(s, fbt, flush).host == WriteBack(fbt, s.host, b)
  {
    var b := Marked(Record(s.list, flush.idx), flush);
    FlushKeepsEnabled(s, fbt, flush);
    AlignBoBounds(b.mapsz);
    hide IndexOf, UniqueIdx, AlignBo, Put, Has, Record, StackSafe, Freed, Released;
    var h := WriteBack(fbt, s.host, b);
    assert WriteBack(fbt, h, b) == h;
  }

  // Flushing part of a plain write mapping loses the rest at its unmap: whatever the guest
  // wrote, the two publish the whole mapping exactly when the flush named all of it.  With
  // the APPLE form this is what is meant: the mapping is explicit from then on.
  lemma PartialUnmapExact(s: State, flush: Op)
    requires StackSafe(s) && OfPlainMapping(s, flush)
    ensures var b := Record(s.list, flush.idx);
      && CopyFits(b, s.host)
      && ((forall fbt: seq<Byte> | |fbt| == MGLFBT_SIZE ::
             FlushThenUnmap(s, fbt, flush).host == CopyOf(fbt, s.host, b, 0, b.mapsz))
          <==> b.mapsz == 0 || (flush.off == 0 && (flush.len == 0 || flush.len == b.mapsz)))
  {
    var b, c := Record(s.list, flush.idx), Marked(Record(s.list, flush.idx), flush);
    FlushKeepsEnabled(s, s.fbt, flush);
    PlainFits(s, flush);
    CopyExact(c, s.host, 0, c.mapsz);
    assert c.mapsz == b.mapsz && c.hva == b.hva;
    hide *;
    forall fbt: seq<Byte> | |fbt| == MGLFBT_SIZE
      ensures FlushThenUnmap(s, fbt, flush).host == WriteBack(fbt, s.host, c)
      ensures CopyOf(fbt, s.host, c, 0, b.mapsz) == CopyOf(fbt, s.host, b, 0, b.mapsz)
    {
      FlushThenUnmapHost(s, fbt, flush);
      CopyOfMarked(fbt, s.host, b, flush, 0, b.mapsz);
    }
  }

  lemma PlainFits(s: State, flush: Op)
    requires StackSafe(s) && OfPlainMapping(s, flush)
    ensures CopyFits(Record(s.list, flush.idx), s.host)
  {
    Members(s.list);
    assert Inside(Record(s.list, flush.idx), s);
    hide IndexOf, UniqueIdx, AlignBo, Has, Record;
  }

  lemma CopyOfMarked(fbt: seq<Byte>, host: seq<Byte>, b: Bufo, flush: Op, lo: nat, n: nat)
    requires flush.Flush? && |fbt| == MGLFBT_SIZE && CopyFits(b, host) && CopyFits(Marked(b, flush), host)
    requires b.hva != 0 && lo + n <= b.mapsz
    ensures CopyOf(fbt, host, Marked(b, flush), lo, n) == CopyOf(fbt, host, b, lo, n)
  {
  }

  // What the guest stores after the flush: the APPLE form publishes none of it at the unmap,
  // for the mapping is explicit from then on; the plain form copies the flushed range again,
  // or the rest of the mapping for an empty one.
  lemma WritesAfterFlush(s: State, flush: Op, fbt: seq<Byte>)
    requires StackSafe(s) && |fbt| == MGLFBT_SIZE && OfPlainMapping(s, flush)
    ensures Enabled(s, flush) && Enabled(Step(s, flush).(fbt := fbt), Unmap(flush.idx))
    ensures var b, t := Record(s.list, flush.idx), Step(s, flush).(fbt := fbt);
            && CopyFits(b, t.host)
            && Step(t, Unmap(flush.idx)).host ==
                 if flush.apple then t.host
                 else CopyOf(fbt, t.host, b, flush.off, if flush.len != 0 then flush.len else b.mapsz - flush.off)
  {
    var b, c := Record(s.list, flush.idx), Marked(Record(s.list, flush.idx), flush);
    FlushedState(s, flush, fbt);
    PlainFits(s, flush);
    hide IndexOf, UniqueIdx, AlignBo, Put, Has, Record, StackSafe, Freed, Released, Step, Enabled, WriteBack, CopyOf;
    var n := if flush.len != 0 then flush.len else b.mapsz - flush.off;
    var t := Step(s, flush).(fbt := fbt);
    CopyOfMarked(fbt, t.host, b, flush, flush.off, n);
    CopySame(fbt, c, t.host, flush.off, n);
  }

  // The state the unmap finds, and the copy it makes.
  lemma FlushedState(s: State, flush: Op, fbt: seq<Byte>)
    requires StackSafe(s) && |fbt| == MGLFBT_SIZE && OfPlainMapping(s, flush)
    ensures Enabled(s, flush) && Enabled(Step(s, flush).(fbt := fbt), Unmap(flush.idx))
    ensures var c, t := Marked(Record(s.list, flush.idx), flush), Step(s, flush).(fbt := fbt);
            && |t.host| == |s.host| && CopyFits(c, t.host)
            && Step(t, Unmap(flush.idx)).host == if CopiedAtUnmap(c.acc) then WriteBack(fbt, t.host, c) else t.host
  {
    FlushKeepsEnabled(s, s.fbt, flush);
    assert s.(fbt := s.fbt) == s;
    hide IndexOf, UniqueIdx, AlignBo, Put, Has, Record, StackSafe, Freed, Released, WriteBack;
  }
}
