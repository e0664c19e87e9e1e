/**
 Client vertex arrays: a draw call's indices are scanned for their range, and the guest's
 copy of that range of every enabled array is put in the arrays' shadow. The main result is
 that every element a draw reads then equals guest memory, even where arrays overlap.
 */
module VertexPush {
  import opened Memory
  import opened VertexArena
  import opened Words

  // One array: size is the bytes of an element (of its component count and type), ptr its
  // position in the shadow, 0 for none.
  datatype VArray = VArray(enable: bool, size: nat, stride: nat, ptr: nat)

  predicate Active(a: VArray) {
    a.enable && a.ptr != 0
  }

  // ---------- one array ----------

  function CbElem(a: VArray): nat {
    if a.stride != 0 then a.stride else a.size
  }

  function Mul(x: nat, y: nat): nat {
    x * y
  }

  // Bytes from element start to the end of element end.
  function Span(a: VArray, start: nat, end: nat): nat
    requires start <= end
  {
    Mul(CbElem(a), end - start) + a.size
  }

  function DataWords(a: VArray, start: nat, end: nat): nat
    requires start <= end
  {
    WordCount(Span(a, start, end))
  }

  // Bytes copied: whole words, cut at half the vertex cache.
  function Room(a: VArray, start: nat, end: nat, limit: nat): (r: nat)
    requires start <= end
    ensures r <= 4 * PadEven(DataWords(a, start, end))
  {
    if 4 * DataWords(a, start, end) > limit then limit else 4 * DataWords(a, start, end)
  }

  lemma PadWords(n: nat)
    ensures PadEven(n) == if n % 2 != 0 then n + 1 else n
  {
  }

  function From(a: VArray, start: nat): nat {
    a.ptr + Mul(CbElem(a), start)
  }

  // ---------- where GL finds an element ----------

  // Element i of an array based at an address: a stride of 0 stands for elements without a gap.
  function ElementAt(base: int, a: VArray, i: nat): int {
    if a.stride == 0 then base + i * a.size else base + i * a.stride
  }

  // Bytes from the start of element start to the end of element end, and the words that hold them.
  function Taken(a: VArray, start: nat, end: nat): int {
    ElementAt(0, a, end) - ElementAt(0, a, start) + a.size
  }

  function TakenWords(a: VArray, start: nat, end: nat): int {
    (Taken(a, start, end) + 3) / 4
  }

  // Bytes the host copies of them.
  function TakenRoom(a: VArray, start: nat, end: nat, limit: nat): int {
    if 4 * TakenWords(a, start, end) > limit then limit else 4 * TakenWords(a, start, end)
  }

  // Byte b behind `from` is there, and is the guest's byte b behind `at`.
  ghost predicate SameByte(mem: seq<Byte>, from: int, guest: int -> Byte, at: int, b: int) {
    0 <= from + b < |mem| && mem[from + b] == guest(at + b)
  }

  lemma Addresses(base: int, a: VArray, i: nat)
    ensures ElementAt(base, a, i) == base + Mul(CbElem(a), i)
    ensures ElementAt(a.ptr, a, i) == From(a, i)
  {
  }

  lemma Takes(a: VArray, start: nat, end: nat)
    requires start <= end
    ensures Taken(a, start, end) == Span(a, start, end) && TakenWords(a, start, end) == DataWords(a, start, end)
    ensures 8 * ((TakenWords(a, start, end) + 1) / 2) == 4 * PadEven(DataWords(a, start, end))
    ensures forall limit: nat :: TakenRoom(a, start, end, limit) == Room(a, start, end, limit)
  {
    Addresses(0, a, start);
    Addresses(0, a, end);
    MulSplit(CbElem(a), start, end);
    hide ElementAt, CbElem;
  }

  // ---------- all of them ----------

  function Consumed(arrays: seq<VArray>, start: nat, end: nat): nat
    requires start <= end
  {
    if arrays == [] then 0
    else
      var first := if Active(arrays[0]) then 4 * PadEven(DataWords(arrays[0], start, end)) else 0;
      first + Consumed(arrays[1..], start, end)
  }

  // Every copy is inside the memory the arrays are in.
  predicate InBounds(arrays: seq<VArray>, start: nat, end: nat, limit: nat, size: nat)
    requires start <= end
  {
    forall a :: a in arrays && Active(a) ==> From(a, start) + Room(a, start, end, limit) <= size
  }

  lemma FirstBounds(arrays: seq<VArray>, start: nat, end: nat, limit: nat, size: nat)
    requires start <= end && arrays != [] && Active(arrays[0]) && InBounds(arrays, start, end, limit, size)
    ensures From(arrays[0], start) + Room(arrays[0], start, end, limit) <= size
  {
  }

  lemma SuffixBounds(arrays: seq<VArray>, i: nat, start: nat, end: nat, limit: nat, size: nat)
    requires start <= end && i < |arrays| && InBounds(arrays, start, end, limit, size)
    ensures arrays[i..][0] == arrays[i] && arrays[i..][1..] == arrays[i + 1..]
    ensures InBounds(arrays[i..], start, end, limit, size) && InBounds(arrays[i + 1..], start, end, limit, size)
  {
    var t := arrays[i..];
    assert forall k :: 0 <= k < |t| ==> t[k] in arrays;
    assert forall k :: 0 <= k < |t[1..]| ==> t[1..][k] in arrays;
  }

  function PushOne(mem: seq<Byte>, data: seq<Byte>, pos: nat, a: VArray, start: nat, end: nat,
      limit: nat): (r: seq<Byte>)
    requires start <= end && pos + Room(a, start, end, limit) <= |data|
    requires From(a, start) + Room(a, start, end, limit) <= |mem|
    ensures |r| == |mem|
  {
    Patched(mem, From(a, start), data[pos..pos + Room(a, start, end, limit)])
  }

  // The memory after pushing the arrays in order, from payload byte pos on.
  function PushAll(mem: seq<Byte>, data: seq<Byte>, pos: nat, arrays: seq<VArray>, start: nat, end: nat,
      limit: nat): (r: seq<Byte>)
    requires start <= end && pos + Consumed(arrays, start, end) <= |data|
    requires InBounds(arrays, start, end, limit, |mem|)
    ensures |r| == |mem|
    decreases |arrays|
  {
    if arrays == [] then mem
    else
      var rest := arrays[1..];
      assert forall k :: 0 <= k < |rest| ==> rest[k] == arrays[k + 1];
      if Active(arrays[0]) then
        PushAll(PushOne(mem, data, pos, arrays[0], start, end, limit),
                data, pos + 4 * PadEven(DataWords(arrays[0], start, end)), rest, start, end, limit)
      else PushAll(mem, data, pos, rest, start, end, limit)
  }

  // The payload and the memory have room for a push.
  predicate Pushable(arrays: seq<VArray>, at: nat, start: nat, end: nat, limit: nat, payload: nat, size: nat)
    requires start <= end
  {
    at + Consumed(arrays, start, end) <= payload && InBounds(arrays, start, end, limit, size)
  }

  // What a draw that pushes leaves.
  function AfterPush(mem: seq<Byte>, data: seq<Byte>, at: nat, arrays: seq<VArray>, start: nat, end: nat,
      limit: nat): seq<Byte>
    requires start <= end
  {
    if Pushable(arrays, at, start, end, limit, |data|, |mem|) then PushAll(mem, data, at, arrays, start, end, limit)
        else mem
  }

  // ---------- the index scan ----------

  // Index i of a client index array of elements w bytes wide, least byte first.
  function IndexAt(shm: seq<Byte>, w: nat, i: nat): nat
    requires w in {1, 2, 4} && w * (i + 1) <= |shm|
  {
    if w == 1 then shm[i]
    else if w == 2 then (shm[2 * i] as int) + 0x100 * (shm[2 * i + 1] as int)
    else (shm[4 * i] as int) + 0x100 * (shm[4 * i + 1] as int)
         + 0x1_0000 * (shm[4 * i + 2] as int) + 0x100_0000 * (shm[4 * i + 3] as int)
  }

  function Indices(shm: seq<Byte>, w: nat, count: nat): (s: seq<nat>)
    requires w in {1, 2, 4} && w * count <= |shm|
    ensures |s| == count && forall i :: 0 <= i < count ==> w * (i + 1) <= |shm| && s[i] == IndexAt(shm, w, i)
  {
    if count == 0 then [] else Indices(shm, w, count - 1) + [IndexAt(shm, w, count - 1)]
  }

  function EndOf(s: seq<nat>): nat {
    if s == [] then 0
    else var e := EndOf(s[..|s| - 1]); if s[|s| - 1] > e then s[|s| - 1] else e
  }

  function StartFrom(end: nat, s: seq<nat>): (r: nat)
    ensures r <= end
  {
    if s == [] then end
    else var b := StartFrom(end, s[..|s| - 1]); if s[|s| - 1] < b then s[|s| - 1] else b
  }

  // The client indices of a draw are in the shared memory.
  predicate Scannable(shm: seq<Byte>, w: nat, count: nat) {
    w in {1, 2, 4} && w * count <= |shm|
  }

  // The greatest and the least of them.
  function Top(shm: seq<Byte>, w: nat, count: nat): nat
    requires Scannable(shm, w, count)
  {
    EndOf(Indices(shm, w, count))
  }

  function Bottom(shm: seq<Byte>, w: nat, count: nat): (r: nat)
    requires Scannable(shm, w, count)
    ensures r <= Top(shm, w, count)
  {
    StartFrom(Top(shm, w, count), Indices(shm, w, count))
  }

  // Index j of the draw, and the payload bytes all of them take.
  function DrawnIndex(shm: seq<Byte>, w: nat, count: nat, j: nat): nat
    requires Scannable(shm, w, count) && j < count
  {
    Indices(shm, w, count)[j]
  }

  function IndexRoom(w: nat, count: nat): nat {
    Aligned(w * count)
  }

  // The two loops over the indices.
  method IndexRange(shm: seq<Byte>, w: nat, count: nat) returns (start: nat, end: nat)
    requires Scannable(shm, w, count)
    ensures end == Top(shm, w, count) && start == Bottom(shm, w, count)
  {
    hide Indices, IndexAt;
    ghost var s := Indices(shm, w, count);
    end := 0;
    for i := 0 to count
      invariant end == EndOf(s[..i])
    {
      ScanStep(s, i);
      var p := IndexAt(shm, w, i);
      end := if p > end then p else end;
    }
    assert s[..count] == s;
    start := end;
    for i := 0 to count
      invariant start == StartFrom(end, s[..i])
    {
      ScanStep(s, i);
      var p := IndexAt(shm, w, i);
      start := if p < start then p else start;
    }
  }

  lemma ScanStep(s: seq<nat>, i: nat)
    requires i < |s|
    ensures s[..i + 1][..i] == s[..i] && s[..i + 1][i] == s[i] && |s[..i + 1]| == i + 1
  {
  }

  // The scan finds the least and the greatest index.
  lemma RangeCovers(s: seq<nat>)
    ensures forall i :: 0 <= i < |s| ==> StartFrom(EndOf(s), s) <= s[i] <= EndOf(s)
    ensures s != [] ==> EndOf(s) in s && StartFrom(EndOf(s), s) in s
    ensures s == [] ==> StartFrom(EndOf(s), s) == EndOf(s) == 0
  {
    EndCovers(s);
    StartCovers(EndOf(s), s);
  }

  lemma EndCovers(s: seq<nat>)
    ensures forall i :: 0 <= i < |s| ==> s[i] <= EndOf(s)
    ensures EndOf(s) == 0 || EndOf(s) in s
    ensures s != [] ==> EndOf(s) in s
  {
    if s == [] {
    } else {
      var t := s[..|s| - 1];
      EndCovers(t);
      assert s[|s| - 1] in s && forall x :: x in t ==> x in s;
      if EndOf(s) == 0 {
        assert s[|s| - 1] == 0;
      }
    }
  }

  lemma StartCovers(end: nat, s: seq<nat>)
    ensures StartFrom(end, s) <= end && forall i :: 0 <= i < |s| ==> StartFrom(end, s) <= s[i]
    ensures StartFrom(end, s) == end || StartFrom(end, s) in s
  {
    if s == [] {
    } else {
      StartCovers(end, s[..|s| - 1]);
      assert s[|s| - 1] in s && forall x :: x in s[..|s| - 1] ==> x in s;
    }
  }

  // ---------- the shadow mirrors guest memory ----------

  // Host byte h of the array's copied range is the guest byte at the same distance from the
  // array's own guest address.
  ghost predicate Mirrors(mem: seq<Byte>, a: VArray, handle: int, guest: int -> Byte, start: nat, end: nat, limit: nat)
    requires start <= end
  {
    forall h :: From(a, start) <= h < From(a, start) + Room(a, start, end, limit) && h < |mem| ==>
      mem[h] == guest(h + (handle - a.ptr))
  }

  // The payload holds, for each active array in turn, the guest's bytes from element start
  // on, for as many words as the host copies.
  ghost predicate Packed(data: seq<Byte>, pos: nat, arrays: seq<VArray>, handles: seq<int>, guest: int -> Byte,
      start: nat, end: nat)
    requires start <= end && |handles| == |arrays| && pos + Consumed(arrays, start, end) <= |data|
    decreases |arrays|
  {
    arrays != [] ==>
      var a := arrays[0];
      if Active(a) then
        && (forall x :: pos <= x < pos + 4 * DataWords(a, start, end) ==>
              data[x] == guest(From(a, start) + (x - pos) + (handles[0] - a.ptr)))
        && Packed(data, pos + 4 * PadEven(DataWords(a, start, end)), arrays[1..], handles[1..], guest, start, end)
      else Packed(data, pos, arrays[1..], handles[1..], guest, start, end)
  }

  // Two arrays whose copied ranges share a byte agree on the guest address of each byte.
  ghost predicate Agree(a: VArray, h: int, b: VArray, g: int, start: nat, end: nat, limit: nat)
    requires start <= end
  {
    From(a, start) < From(b, start) + Room(b, start, end, limit) &&
        From(b, start) < From(a, start) + Room(a, start, end, limit)
      && Room(a, start, end, limit) > 0 && Room(b, start, end, limit) > 0
    ==> h - a.ptr == g - b.ptr
  }

  ghost predicate AgreeAll(a: VArray, h: int, arrays: seq<VArray>, handles: seq<int>, start: nat, end: nat, limit: nat)
    requires start <= end && |handles| == |arrays|
  {
    forall k :: 0 <= k < |arrays| && Active(arrays[k]) ==> Agree(a, h, arrays[k], handles[k], start, end, limit)
  }

  ghost predicate Consistent(arrays: seq<VArray>, handles: seq<int>, start: nat, end: nat, limit: nat)
    requires start <= end && |handles| == |arrays|
  {
    forall k, m :: 0 <= k < |arrays| && 0 <= m < |arrays| && Active(arrays[k]) && Active(arrays[m]) ==>
      Agree(arrays[k], handles[k], arrays[m], handles[m], start, end, limit)
  }

  lemma PushedMirrors(mem: seq<Byte>, data: seq<Byte>, pos: nat, a: VArray, h: int, guest: int -> Byte, start: nat,
      end: nat, limit: nat)
    requires start <= end && pos + 4 * DataWords(a, start, end) <= |data|
    requires From(a, start) + Room(a, start, end, limit) <= |mem|
    requires forall x :: pos <= x < pos + 4 * DataWords(a, start, end) ==>
               data[x] == guest(From(a, start) + (x - pos) + (h - a.ptr))
    ensures Mirrors(PushOne(mem, data, pos, a, start, end, limit), a, h, guest, start, end, limit)
  {
    hide DataWords, From;
    var r := PushOne(mem, data, pos, a, start, end, limit);
    forall p | From(a, start) <= p < From(a, start) + Room(a, start, end, limit)
      ensures r[p] == guest(p + (h - a.ptr))
    {
      var x := pos + (p - From(a, start));
      assert data[x] == guest(From(a, start) + (x - pos) + (h - a.ptr));
    }
  }

  // Pushing b leaves what mirrors for a.
  lemma PushKeeps(mem: seq<Byte>, data: seq<Byte>, pos: nat, b: VArray, g: int, a: VArray, h: int, guest: int -> Byte,
      start: nat, end: nat, limit: nat)
    requires start <= end && pos + 4 * DataWords(b, start, end) <= |data|
    requires From(b, start) + Room(b, start, end, limit) <= |mem|
    requires Mirrors(mem, a, h, guest, start, end, limit)
    requires Mirrors(PushOne(mem, data, pos, b, start, end, limit), b, g, guest, start, end, limit)
    requires Agree(a, h, b, g, start, end, limit)
    ensures Mirrors(PushOne(mem, data, pos, b, start, end, limit), a, h, guest, start, end, limit)
  {
    var r := PushOne(mem, data, pos, b, start, end, limit);
    hide DataWords, From, Room;
    forall p | From(a, start) <= p < From(a, start) + Room(a, start, end, limit) && p < |r|
      ensures r[p] == guest(p + (h - a.ptr))
    {
      if From(b, start) <= p < From(b, start) + Room(b, start, end, limit) {
        assert r[p] == guest(p + (g - b.ptr));
      } else {
        assert r[p] == mem[p];
      }
    }
  }

  lemma {:induction false} PushAllKeeps(mem: seq<Byte>, data: seq<Byte>, pos: nat, arrays: seq<VArray>,
      handles: seq<int>,
                                        a: VArray, h: int, guest: int -> Byte, start: nat, end: nat, limit: nat)
    requires start <= end && |handles| == |arrays| && pos + Consumed(arrays, start, end) <= |data|
    requires InBounds(arrays, start, end, limit, |mem|)
    requires Packed(data, pos, arrays, handles, guest, start, end)
    requires Mirrors(mem, a, h, guest, start, end, limit) && AgreeAll(a, h, arrays, handles, start, end, limit)
    ensures Mirrors(PushAll(mem, data, pos, arrays, start, end, limit), a, h, guest, start, end, limit)
    decreases |arrays|
  {
    hide Mirrors, Agree, DataWords, From, Room, PushOne, PadEven;
    if arrays == [] {
    } else {
      var b, rest := arrays[0], arrays[1..];
      assert forall k :: 0 <= k < |rest| ==> rest[k] == arrays[k + 1] && handles[1..][k] == handles[k + 1];
      if Active(b) {
        PadEvenCovers(DataWords(b, start, end));
        PushedMirrors(mem, data, pos, b, handles[0], guest, start, end, limit);
        PushKeeps(mem, data, pos, b, handles[0], a, h, guest, start, end, limit);
        PushAllKeeps(PushOne(mem, data, pos, b, start, end, limit), data, pos + 4 * PadEven(DataWords(b, start, end)),
                     rest, handles[1..], a, h, guest, start, end, limit);
      } else {
        PushAllKeeps(mem, data, pos, rest, handles[1..], a, h, guest, start, end, limit);
      }
    }
  }

  lemma PadEvenCovers(n: nat)
    ensures n <= PadEven(n) <= n + 1
  {
  }

  // After the push every active array's range mirrors guest memory, whatever the overlaps.
  lemma {:induction false} PushAllMirrors(mem: seq<Byte>, data: seq<Byte>, pos: nat, arrays: seq<VArray>,
      handles: seq<int>,
                                          guest: int -> Byte, start: nat, end: nat, limit: nat, k: nat)
    requires start <= end && |handles| == |arrays| && pos + Consumed(arrays, start, end) <= |data|
    requires InBounds(arrays, start, end, limit, |mem|)
    requires Packed(data, pos, arrays, handles, guest, start, end)
    requires Consistent(arrays, handles, start, end, limit)
    requires k < |arrays| && Active(arrays[k])
    ensures Mirrors(PushAll(mem, data, pos, arrays, start, end, limit), arrays[k], handles[k], guest, start, end, limit)
    decreases |arrays|
  {
    hide Mirrors, Agree, DataWords, From, Room, PushOne, PadEven;
    var b, rest := arrays[0], arrays[1..];
    assert forall m :: 0 <= m < |rest| ==> rest[m] == arrays[m + 1] && handles[1..][m] == handles[m + 1];
    PadEvenCovers(DataWords(b, start, end));
    if k == 0 {
      PushedMirrors(mem, data, pos, b, handles[0], guest, start, end, limit);
      PushAllKeeps(PushOne(mem, data, pos, b, start, end, limit), data, pos + 4 * PadEven(DataWords(b, start, end)),
                   rest, handles[1..], b, handles[0], guest, start, end, limit);
    } else if Active(b) {
      PushAllMirrors(PushOne(mem, data, pos, b, start, end, limit), data, pos + 4 * PadEven(DataWords(b, start, end)),
                     rest, handles[1..], guest, start, end, limit, k - 1);
    } else {
      PushAllMirrors(mem, data, pos, rest, handles[1..], guest, start, end, limit, k - 1);
    }
  }

  // Bytes outside every copied range stay.
  lemma {:induction false} PushAllFrame(mem: seq<Byte>, data: seq<Byte>, pos: nat, arrays: seq<VArray>, start: nat,
      end: nat, limit: nat, h: nat)
    requires start <= end && pos + Consumed(arrays, start, end) <= |data|
    requires InBounds(arrays, start, end, limit, |mem|) && h < |mem|
    requires forall k :: 0 <= k < |arrays| && Active(arrays[k]) ==>
               h < From(arrays[k], start) || h >= From(arrays[k], start) + Room(arrays[k], start, end, limit)
    ensures PushAll(mem, data, pos, arrays, start, end, limit)[h] == mem[h]
    decreases |arrays|
  {
    hide DataWords, From, PadEven;
    if arrays == [] {
    } else {
      var b, rest := arrays[0], arrays[1..];
      assert forall m :: 0 <= m < |rest| ==> rest[m] == arrays[m + 1];
      if Active(b) {
        PushAllFrame(PushOne(mem, data, pos, b, start, end, limit), data, pos + 4 * PadEven(DataWords(b, start, end)),
                     rest, start, end, limit, h);
      } else {
        PushAllFrame(mem, data, pos, rest, start, end, limit, h);
      }
    }
  }

  // ---------- every element a draw reads ----------

  // Each byte of element i, where GL reads it in the shadow, is the guest's at the element's
  // own address.
  ghost predicate Present(mem: seq<Byte>, a: VArray, handle: int, guest: int -> Byte, i: nat) {
    forall b :: 0 <= b < a.size ==> SameByte(mem, ElementAt(a.ptr, a, i), guest, ElementAt(handle, a, i), b)
  }

  // A push that copies short of the span does so at half the vertex cache.
  lemma RoomCovers(a: VArray, start: nat, end: nat, limit: nat)
    requires start <= end
    ensures Span(a, start, end) <= Room(a, start, end, limit) <==> Span(a, start, end) <= limit
  {
    hide Span;
  }

  lemma ElementInSpan(a: VArray, start: nat, i: nat, end: nat)
    requires start <= i <= end
    ensures From(a, start) + Mul(CbElem(a), i - start) == From(a, i)
    ensures Mul(CbElem(a), i - start) + a.size <= Span(a, start, end)
  {
    MulSplit(CbElem(a), start, i);
    MulSplit(CbElem(a), i - start, end - start);
  }

  lemma MirrorsPresent(mem: seq<Byte>, a: VArray, handle: int, guest: int -> Byte, start: nat, i: nat, end: nat,
      limit: nat)
    requires start <= i <= end && Span(a, start, end) <= limit
    requires From(a, start) + Room(a, start, end, limit) <= |mem|
    requires Mirrors(mem, a, handle, guest, start, end, limit)
    ensures Present(mem, a, handle, guest, i)
  {
    RoomCovers(a, start, end, limit);
    ElementInSpan(a, start, i, end);
    Addresses(a.ptr, a, i);
    Addresses(handle, a, i);
    hide Span, Room, Mul, ElementAt, CbElem;
    forall b | 0 <= b < a.size
      ensures SameByte(mem, ElementAt(a.ptr, a, i), guest, ElementAt(handle, a, i), b)
    {
      assert mem[From(a, i) + b] == guest(From(a, i) + b + (handle - a.ptr));
    }
  }

  lemma PresentInRange(mem: seq<Byte>, data: seq<Byte>, at: nat, arrays: seq<VArray>, handles: seq<int>,
                       guest: int -> Byte, start: nat, end: nat, limit: nat, k: nat, i: nat)
    requires start <= i <= end && |handles| == |arrays|
    requires Pushable(arrays, at, start, end, limit, |data|, |mem|)
    requires Packed(data, at, arrays, handles, guest, start, end) && Consistent(arrays, handles, start, end, limit)
    requires k < |arrays| && Active(arrays[k]) && Span(arrays[k], start, end) <= limit
    ensures Present(AfterPush(mem, data, at, arrays, start, end, limit), arrays[k], handles[k], guest, i)
  {
    assert arrays[k] in arrays;
    hide Consistent, Packed, PushAll, Consumed, Mirrors, Present, Span, Room, Active, From;
    PushAllMirrors(mem, data, at, arrays, handles, guest, start, end, limit, k);
    MirrorsPresent(PushAll(mem, data, at, arrays, start, end, limit), arrays[k], handles[k], guest, start, i, end,
        limit);
  }

  // The push of one array delivers every element from start to end, if the memory and the
  // payload have room and the payload is the guest's.
  ghost predicate Delivers(mem: seq<Byte>, data: seq<Byte>, guest: int -> Byte, a: VArray, handle: int,
                           start: nat, end: nat, limit: nat)
    requires start <= end
  {
    PayloadOf(mem, data, guest, a, handle, start, end) ==>
      && From(a, start) + Room(a, start, end, limit) <= |mem| && Room(a, start, end, limit) <= |data|
      && forall i :: start <= i <= end ==> Present(PushOne(mem, data, 0, a, start, end, limit), a, handle, guest, i)
  }

  ghost predicate PayloadOf(mem: seq<Byte>, data: seq<Byte>, guest: int -> Byte, a: VArray, handle: int, start: nat,
      end: nat)
  {
    && 4 * TakenWords(a, start, end) <= |data|
    && ElementAt(a.ptr, a, start) + 4 * TakenWords(a, start, end) <= |mem|
    && forall x :: 0 <= x < 4 * TakenWords(a, start, end) ==> SameByte(data, 0, guest, ElementAt(handle, a, start), x)
  }

  // Every element is delivered, for all memories, guests and payloads, exactly when they end
  // within half the vertex cache.
  lemma DeliversExact(a: VArray, handle: int, start: nat, end: nat, limit: nat)
    requires start <= end && a.size > 0
    ensures (forall mem, data, guest :: Delivers(mem, data, guest, a, handle, start, end, limit)) <==>
        Taken(a, start, end) <= limit
  {
    Takes(a, start, end);
    if Span(a, start, end) <= limit {
      forall mem, data, guest ensures Delivers(mem, data, guest, a, handle, start, end, limit) {
        DeliversWithin(mem, data, guest, a, handle, start, end, limit);
      }
    } else {
      CutElementMissing(a, handle, start, end, limit);
    }
  }

  lemma DeliversWithin(mem: seq<Byte>, data: seq<Byte>, guest: int -> Byte, a: VArray, handle: int, start: nat,
      end: nat, limit: nat)
    requires start <= end && Span(a, start, end) <= limit
    ensures Delivers(mem, data, guest, a, handle, start, end, limit)
  {
    if PayloadOf(mem, data, guest, a, handle, start, end) {
      Takes(a, start, end);
      Addresses(a.ptr, a, start);
      Addresses(handle, a, start);
      hide DataWords, Span, From, Present, Mirrors, ElementAt, TakenWords, Mul, CbElem;
      forall x | 0 <= x < 4 * DataWords(a, start, end) ensures data[x] == guest(From(a, start) + x + (handle - a.ptr)) {
        assert SameByte(data, 0, guest, ElementAt(handle, a, start), x);
        assert From(a, start) + x + (handle - a.ptr) == ElementAt(handle, a, start) + x;
      }
      PushedMirrors(mem, data, 0, a, handle, guest, start, end, limit);
      forall i | start <= i <= end ensures Present(PushOne(mem, data, 0, a, start, end, limit), a, handle, guest, i) {
        MirrorsPresent(PushOne(mem, data, 0, a, start, end, limit), a, handle, guest, start, i, end, limit);
      }
    }
  }

  function Bytes(v: Byte, n: nat): (r: seq<Byte>)
    ensures |r| == n && forall i :: 0 <= i < n ==> r[i] == v
  {
    seq(n, _ => v)
  }

  // Where the span is cut, the last byte of the last element keeps what the memory held.
  lemma CutElementMissing(a: VArray, handle: int, start: nat, end: nat, limit: nat)
    requires start <= end && a.size > 0 && limit < Span(a, start, end)
    ensures exists mem, data, guest :: !Delivers(mem, data, guest, a, handle, start, end, limit)
  {
    var n := 4 * DataWords(a, start, end);
    var mem, data, guest := Bytes(0, From(a, start) + n), Bytes(1, n), (_: int) => 1;
    RoomCovers(a, start, end, limit);
    ElementInSpan(a, start, end, end);
    SpanInWords(a, start, end);
    Takes(a, start, end);
    Addresses(a.ptr, a, start);
    Addresses(a.ptr, a, end);
    hide DataWords, Span, From, Mul, ElementAt, TakenWords, CbElem;
    assert PayloadOf(mem, data, guest, a, handle, start, end);
    var r, at := PushOne(mem, data, 0, a, start, end, limit), From(a, end) + a.size - 1;
    assert r[at] == mem[at] == 0;
    assert at == ElementAt(a.ptr, a, end) + (a.size - 1);
    assert !SameByte(r, ElementAt(a.ptr, a, end), guest, ElementAt(handle, a, end), a.size - 1);
    assert !Present(r, a, handle, guest, end);
    assert !Delivers(mem, data, guest, a, handle, start, end, limit);
  }

  lemma SpanInWords(a: VArray, start: nat, end: nat)
    requires start <= end
    ensures Span(a, start, end) <= 4 * DataWords(a, start, end)
    ensures Span(a, start, end) == Mul(CbElem(a), end - start) + a.size
  {
  }

  // What the guest sends, for each active array in turn: the bytes of its own elements from
  // start on, in whole words and then to an even number of them.
  ghost predicate Sends(data: seq<Byte>, pos: nat, arrays: seq<VArray>, handles: seq<int>, guest: int -> Byte,
      start: nat, end: nat)
    requires |handles| == |arrays|
    decreases |arrays|
  {
    arrays != [] ==>
      var a, n := arrays[0], TakenWords(arrays[0], start, end);
      if a.enable && a.ptr != 0 then
        && n >= 0 && pos + 8 * ((n + 1) / 2) <= |data|
        && (forall x :: 0 <= x < 4 * n ==> SameByte(data, pos, guest, ElementAt(handles[0], a, start), x))
        && Sends(data, pos + 8 * ((n + 1) / 2), arrays[1..], handles[1..], guest, start, end)
      else Sends(data, pos, arrays[1..], handles[1..], guest, start, end)
  }

  // And the shadow has room for what is copied of each.
  ghost predicate Holds(arrays: seq<VArray>, start: nat, end: nat, limit: nat, size: nat) {
    forall a :: a in arrays && a.enable && a.ptr != 0 ==>
                  ElementAt(a.ptr, a, start) + TakenRoom(a, start, end, limit) <= size
  }

  // Arrays that share a byte of what is copied are equally far from their guest addresses.
  ghost predicate SameDistance(arrays: seq<VArray>, handles: seq<int>, start: nat, end: nat, limit: nat)
    requires |handles| == |arrays|
  {
    forall k, m :: 0 <= k < |arrays| && 0 <= m < |arrays| && Active(arrays[k]) && Active(arrays[m]) ==>
      OneDistance(arrays[k], handles[k], arrays[m], handles[m], start, end, limit)
  }

  ghost predicate OneDistance(a: VArray, h: int, b: VArray, g: int, start: nat, end: nat, limit: nat) {
    (exists x :: Copied(a, start, end, limit, x) && Copied(b, start, end, limit, x)) ==> h - a.ptr == g - b.ptr
  }

  // Byte x of the shadow is one that is copied of array a.
  predicate Copied(a: VArray, start: nat, end: nat, limit: nat, x: int) {
    ElementAt(a.ptr, a, start) <= x < ElementAt(a.ptr, a, start) + TakenRoom(a, start, end, limit)
  }

  lemma {:induction false} SendsPacked(data: seq<Byte>, pos: nat, arrays: seq<VArray>, handles: seq<int>,
      guest: int -> Byte, start: nat, end: nat)
    requires start <= end && |handles| == |arrays| && pos <= |data|
    requires Sends(data, pos, arrays, handles, guest, start, end)
    ensures pos + Consumed(arrays, start, end) <= |data|
    ensures Packed(data, pos, arrays, handles, guest, start, end)
    decreases |arrays|
  {
    if arrays == [] {
    } else {
      var a := arrays[0];
      Takes(a, start, end);
      Addresses(handles[0], a, start);
      Addresses(a.ptr, a, start);
      hide DataWords, TakenWords, PadEven, ElementAt, From, Mul, CbElem;
      var n := DataWords(a, start, end);
      if Active(a) {
        PadEvenCovers(n);
        SendsPacked(data, pos + 4 * PadEven(n), arrays[1..], handles[1..], guest, start, end);
        forall x | pos <= x < pos + 4 * n ensures data[x] == guest(From(a, start) + (x - pos) + (handles[0] - a.ptr)) {
          assert SameByte(data, pos, guest, ElementAt(handles[0], a, start), x - pos);
          assert From(a, start) + (x - pos) + (handles[0] - a.ptr) == ElementAt(handles[0], a, start) + (x - pos);
        }
      } else {
        SendsPacked(data, pos, arrays[1..], handles[1..], guest, start, end);
      }
    }
  }

  lemma HoldsInBounds(arrays: seq<VArray>, start: nat, end: nat, limit: nat, size: nat)
    requires start <= end && Holds(arrays, start, end, limit, size)
    ensures InBounds(arrays, start, end, limit, size)
  {
    forall a | a in arrays && Active(a) ensures From(a, start) + Room(a, start, end, limit) <= size {
      Takes(a, start, end);
      Addresses(a.ptr, a, start);
    }
  }

  lemma OneDistanceAgree(a: VArray, h: int, b: VArray, g: int, start: nat, end: nat, limit: nat)
    requires start <= end && OneDistance(a, h, b, g, start, end, limit)
    ensures Agree(a, h, b, g, start, end, limit)
  {
    Takes(a, start, end);
    Takes(b, start, end);
    Addresses(a.ptr, a, start);
    Addresses(b.ptr, b, start);
    hide ElementAt, TakenRoom, Room, From;
    var x := if From(a, start) < From(b, start) then From(b, start) else From(a, start);
    assert Agree(a, h, b, g, start, end, limit) || (Copied(a, start, end, limit, x) && Copied(b, start, end, limit, x));
  }

  lemma SameDistanceConsistent(arrays: seq<VArray>, handles: seq<int>, start: nat, end: nat, limit: nat)
    requires start <= end && |handles| == |arrays| && SameDistance(arrays, handles, start, end, limit)
    ensures Consistent(arrays, handles, start, end, limit)
  {
    hide Agree, OneDistance, Active;
    forall k, m | 0 <= k < |arrays| && 0 <= m < |arrays| && Active(arrays[k]) && Active(arrays[m])
      ensures Agree(arrays[k], handles[k], arrays[m], handles[m], start, end, limit)
    {
      OneDistanceAgree(arrays[k], handles[k], arrays[m], handles[m], start, end, limit);
    }
  }

  // Whatever range is pushed: every byte of every element of it is present.
  lemma PushedElementPresent(mem: seq<Byte>, data: seq<Byte>, at: nat, arrays: seq<VArray>, handles: seq<int>,
      guest: int -> Byte, start: nat, end: nat, limit: nat, k: nat, i: nat)
    requires start <= i <= end && |handles| == |arrays| && at <= |data|
    requires Sends(data, at, arrays, handles, guest, start, end) && Holds(arrays, start, end, limit, |mem|)
    requires SameDistance(arrays, handles, start, end, limit)
    requires k < |arrays| && Active(arrays[k]) && Taken(arrays[k], start, end) <= limit
    ensures Present(AfterPush(mem, data, at, arrays, start, end, limit), arrays[k], handles[k], guest, i)
  {
    hide Sends, Holds, SameDistance, Consistent, AfterPush, Taken, Span, Present, Active;
    SameDistanceConsistent(arrays, handles, start, end, limit);
    PushedPresent(mem, data, at, arrays, handles, guest, start, end, limit, k, i);
  }

  lemma PushedPresent(mem: seq<Byte>, data: seq<Byte>, at: nat, arrays: seq<VArray>, handles: seq<int>,
      guest: int -> Byte, start: nat, end: nat, limit: nat, k: nat, i: nat)
    requires start <= i <= end && |handles| == |arrays| && at <= |data|
    requires Sends(data, at, arrays, handles, guest, start, end) && Holds(arrays, start, end, limit, |mem|)
    requires Consistent(arrays, handles, start, end, limit)
    requires k < |arrays| && Active(arrays[k]) && Taken(arrays[k], start, end) <= limit
    ensures Present(AfterPush(mem, data, at, arrays, start, end, limit), arrays[k], handles[k], guest, i)
  {
    hide Sends, Holds, Consistent, AfterPush, Taken, Span, Present, Active, Packed, Consumed, InBounds;
    SendsPacked(data, at, arrays, handles, guest, start, end);
    HoldsInBounds(arrays, start, end, limit, |mem|);
    Takes(arrays[k], start, end);
    PresentInRange(mem, data, at, arrays, handles, guest, start, end, limit, k, i);
  }

  // The guest's call: count indices of w bytes, to a multiple of eight, then the arrays'
  // elements from the least index to the greatest, moved by the base vertex.
  ghost predicate PackedDraw(shm: seq<Byte>, w: nat, count: nat, base: nat, arrays: seq<VArray>, handles: seq<int>,
                             guest: int -> Byte, limit: nat, size: nat)
    requires |handles| == |arrays| && Scannable(shm, w, count)
  {
    var start, end := Bottom(shm, w, count) + base, Top(shm, w, count) + base;
    && (w * count + 7) / 8 * 8 <= |shm|
    && Sends(shm, (w * count + 7) / 8 * 8, arrays, handles, guest, start, end)
    && Holds(arrays, start, end, limit, size)
  }

  // The bytes an index is read from are its own, least byte first.
  lemma IndexBytes(shm: seq<Byte>, w: nat, count: nat, j: nat)
    requires Scannable(shm, w, count) && j < count
    ensures 0 <= w * j <= w * j + w <= |shm| && LittleEnd(DrawnIndex(shm, w, count, j), w) == shm[w * j..w * j + w]
  {
    var i := DrawnIndex(shm, w, count, j);
    assert w * (j + 1) <= |shm| && i == IndexAt(shm, w, j);
    if w == 1 {
      assert LittleEnd(i, 1) == [shm[j]] == shm[j..j + 1];
    } else if w == 2 {
      TwoBytes(shm[2 * j], shm[2 * j + 1]);
      assert shm[2 * j..2 * j + 2] == [shm[2 * j], shm[2 * j + 1]];
    } else {
      FourBytes(shm[4 * j], shm[4 * j + 1], shm[4 * j + 2], shm[4 * j + 3]);
      assert shm[4 * j..4 * j + 4] == [shm[4 * j], shm[4 * j + 1], shm[4 * j + 2], shm[4 * j + 3]];
    }
  }

  lemma IndexInRange(shm: seq<Byte>, w: nat, count: nat, j: nat)
    requires Scannable(shm, w, count) && j < count
    ensures Bottom(shm, w, count) <= DrawnIndex(shm, w, count, j) <= Top(shm, w, count)
  {
    RangeCovers(Indices(shm, w, count));
  }

  lemma IndexRoomIs(w: nat, count: nat)
    ensures IndexRoom(w, count) == (w * count + 7) / 8 * 8
  {
    hide Aligned;
    AlignedIs(w * count);
  }

  // Every vertex a draw reads is present: for each index and each active array whose range
  // is not cut.
  lemma DrawnElementPresent(mem: seq<Byte>, shm: seq<Byte>, w: nat, count: nat, base: nat, arrays: seq<VArray>,
      handles: seq<int>, guest: int -> Byte, limit: nat, k: nat, j: nat)
    requires |handles| == |arrays| && Scannable(shm, w, count)
    requires PackedDraw(shm, w, count, base, arrays, handles, guest, limit, |mem|)
    requires SameDistance(arrays, handles, Bottom(shm, w, count) + base, Top(shm, w, count) + base, limit)
    requires k < |arrays| && Active(arrays[k]) && j < count
    requires Taken(arrays[k], Bottom(shm, w, count) + base, Top(shm, w, count) + base) <= limit
    ensures Present(AfterPush(mem, shm, IndexRoom(w, count), arrays, Bottom(shm, w, count) + base,
        Top(shm, w, count) + base, limit),
                    arrays[k], handles[k], guest, DrawnIndex(shm, w, count, j) + base)
  {
    hide IndexRoom, SameDistance, Sends, Holds, Taken, Present, AfterPush, Bottom, Top, DrawnIndex, Scannable;
    IndexRoomIs(w, count);
    var start, end := Bottom(shm, w, count) + base, Top(shm, w, count) + base;
    var at, i := IndexRoom(w, count), DrawnIndex(shm, w, count, j) + base;
    IndexInRange(shm, w, count, j);
    PushedElementPresent(mem, shm, at, arrays, handles, guest, start, end, limit, k, i);
  }

  // ---------- from the lookups to the draw ----------

  // The copied range stays in the arena the array was placed in exactly when the guest range it
  // stands for ends with the arena; from element 0 on it always does.
  lemma StaysExact(r: Arena, handle: nat, size: nat, a: VArray, start: nat, end: nat, limit: nat)
    requires start <= end && Fits(r, handle, size) && a.ptr == At(r, handle)
    ensures var from, room := ElementAt(a.ptr, a, start), TakenRoom(a, start, end, limit);
            Within(r, from, from + room) <==> ElementAt(handle, a, start) + room <= r.tagHi
    ensures start == 0 && limit <= size / 2 ==>
              ElementAt(handle, a, start) + TakenRoom(a, start, end, limit) <= r.tagHi
  {
    Takes(a, start, end);
    Addresses(a.ptr, a, start);
    Addresses(handle, a, start);
    MulZero(CbElem(a));
    hide Mul, CbElem, DataWords, ElementAt, TakenWords;
  }

  lemma MulZero(c: nat)
    ensures Mul(c, 0) == 0
  {
  }

  // Elements far enough into an array leave its arena, and no overflow is flagged.
  lemma StrayPush()
    ensures var r := NewArena(0x1000_0000, 0x1000, 0x5000);
            var a := VArray(true, 16, 0, 0x6000);
            && Fits(r, 0x1000_0000, 0x1000) && a.ptr == At(r, 0x1000_0000)
            && 4 * TakenWords(a, 0x100, 0x100) <= 0x1000 / 2
            && !Within(r, ElementAt(a.ptr, a, 0x100),
                       ElementAt(a.ptr, a, 0x100) + TakenRoom(a, 0x100, 0x100, 0x1000 / 2))
  {
    assert 0x100 * 16 == 0x1000;
  }

  // Each active array was given its pointer by one of a run of lookups.
  ghost predicate PlacedBy(s: seq<Arena>, qs: seq<Request>, when: seq<nat>, arrays: seq<VArray>, handles: seq<nat>,
      size: nat)
    requires |when| == |handles| == |arrays|
  {
    forall k :: 0 <= k < |arrays| && Active(arrays[k]) ==>
      && when[k] < |qs| && qs[when[k]].handle == handles[k] && qs[when[k]].size == size
      && Answered(s, qs, when[k], arrays[k].ptr)
  }

  // What a push of each takes stays below the end of the arena its handle is in.
  ghost predicate AllStay(after: seq<Arena>, arrays: seq<VArray>, handles: seq<nat>, start: nat, end: nat, size: nat)
    requires start <= end && |handles| == |arrays|
  {
    forall k :: 0 <= k < |arrays| && Active(arrays[k]) ==>
      var q := Request(handles[k], size, 0);
      && Known(after, q.handle, q.size)
      && ElementAt(handles[k], arrays[k], start) + TakenRoom(arrays[k], start, end, size / 2) <= Home(after, q).tagHi
  }

  lemma HomeOfHandle(after: seq<Arena>, q: Request, q': Request)
    requires q.handle == q'.handle && q.size == q'.size && Known(after, q.handle, q.size)
    ensures Home(after, q) == Home(after, q')
  {
  }

  // Two arrays placed by lookups agree wherever their ranges overlap.
  lemma PlacedAgree(s: seq<Arena>, qs: seq<Request>, when: seq<nat>, arrays: seq<VArray>, handles: seq<nat>,
                    start: nat, end: nat, size: nat, k: nat, m: nat)
    requires start <= end && |when| == |handles| == |arrays| && k < |arrays| && m < |arrays|
    requires BlocksApart(LookAll(s, qs)) && PlacedBy(s, qs, when, arrays, handles, size)
    requires AllStay(LookAll(s, qs), arrays, handles, start, end, size)
    requires Active(arrays[k]) && Active(arrays[m])
    ensures Agree(arrays[k], handles[k], arrays[m], handles[m], start, end, size / 2)
  {
    var after, a, b := LookAll(s, qs), arrays[k], arrays[m];
    var q, p := qs[when[k]], qs[when[m]];
    AnsweredHome(s, qs, when[k], a.ptr);
    AnsweredHome(s, qs, when[m], b.ptr);
    HomeOfHandle(after, q, Request(handles[k], size, 0));
    HomeOfHandle(after, p, Request(handles[m], size, 0));
    StaysExact(Home(after, q), q.handle, size, a, start, end, size / 2);
    StaysExact(Home(after, p), p.handle, size, b, start, end, size / 2);
    Takes(a, start, end);
    Takes(b, start, end);
    Addresses(a.ptr, a, start);
    Addresses(b.ptr, b, start);
    var from, from' := From(a, start), From(b, start);
    var to, to' := from + Room(a, start, end, size / 2), from' + Room(b, start, end, size / 2);
    if from < to' && from' < to && from < to && from' < to' {
      var i, j := FirstFit(after, q.handle, q.size), FirstFit(after, p.handle, p.size);
      hide From, Room, Within, BlocksApart, At, LookAll, Mul, CbElem, ElementAt, TakenRoom;
      SharedBytesAgree(after, i, j, q.handle, p.handle, from, to, from', to');
    }
  }

  // From the lookups that placed the arrays to the draw: every element the draw reads is
  // guest memory, overlapping arrays included.
  lemma LookedUpElementPresent(s: seq<Arena>, qs: seq<Request>, when: seq<nat>, mem: seq<Byte>, shm: seq<Byte>,
                               w: nat, count: nat, base: nat, arrays: seq<VArray>, handles: seq<nat>,
                               guest: int -> Byte, size: nat, k: nat, j: nat)
    requires |when| == |handles| == |arrays| && Scannable(shm, w, count)
    requires BlocksApart(s) && AllocatorSound(s, qs) && PlacedBy(s, qs, when, arrays, handles, size)
    requires PackedDraw(shm, w, count, base, arrays, handles, guest, size / 2, |mem|)
    requires AllStay(LookAll(s, qs), arrays, handles, Bottom(shm, w, count) + base, Top(shm, w, count) + base, size)
    requires k < |arrays| && Active(arrays[k]) && j < count
    requires Taken(arrays[k], Bottom(shm, w, count) + base, Top(shm, w, count) + base) <= size / 2
    ensures Present(AfterPush(mem, shm, IndexRoom(w, count), arrays, Bottom(shm, w, count) + base,
        Top(shm, w, count) + base, size / 2),
                    arrays[k], handles[k], guest, DrawnIndex(shm, w, count, j) + base)
  {
    hide Consistent, Sends, Holds, Taken, Present, AfterPush, Bottom, Top, IndexRoom, DrawnIndex, Scannable,
        BlocksApart, AllocatorSound, PlacedBy, AllStay, LookAll;
    IndexRoomIs(w, count);
    var start, end := Bottom(shm, w, count) + base, Top(shm, w, count) + base;
    var at, i := IndexRoom(w, count), DrawnIndex(shm, w, count, j) + base;
    IndexInRange(shm, w, count, j);
    LookAllApart(s, qs);
    PlacedConsistent(s, qs, when, arrays, handles, start, end, size);
    PushedPresent(mem, shm, at, arrays, handles, guest, start, end, size / 2, k, i);
  }

  lemma PlacedConsistent(s: seq<Arena>, qs: seq<Request>, when: seq<nat>, arrays: seq<VArray>, handles: seq<nat>,
                         start: nat, end: nat, size: nat)
    requires start <= end && |when| == |handles| == |arrays|
    requires BlocksApart(LookAll(s, qs)) && PlacedBy(s, qs, when, arrays, handles, size)
    requires AllStay(LookAll(s, qs), arrays, handles, start, end, size)
    ensures Consistent(arrays, handles, start, end, size / 2)
  {
    hide Agree, AllStay, PlacedBy, BlocksApart, LookAll;
    forall k, m | 0 <= k < |arrays| && 0 <= m < |arrays| && Active(arrays[k]) && Active(arrays[m])
      ensures Agree(arrays[k], handles[k], arrays[m], handles[m], start, end, size / 2)
    {
      PlacedAgree(s, qs, when, arrays, handles, start, end, size, k, m);
    }
  }

  // A draw whose least index is 0 needs no more: its arrays stay.
  lemma FirstElementStays(s: seq<Arena>, qs: seq<Request>, when: seq<nat>, arrays: seq<VArray>, handles: seq<nat>,
      end: nat, size: nat)
    requires |when| == |handles| == |arrays| && PlacedBy(s, qs, when, arrays, handles, size)
    ensures AllStay(LookAll(s, qs), arrays, handles, 0, end, size)
  {
    hide Answered, TakenRoom, ElementAt, LookAll, At;
    forall k | 0 <= k < |arrays| && Active(arrays[k])
      ensures var q := Request(handles[k], size, 0);
              && Known(LookAll(s, qs), q.handle, q.size)
              && ElementAt(handles[k], arrays[k], 0) + TakenRoom(arrays[k], 0, end, size / 2) <=
                  Home(LookAll(s, qs), q).tagHi
    {
      var q := qs[when[k]];
      AnsweredHome(s, qs, when[k], arrays[k].ptr);
      HomeOfHandle(LookAll(s, qs), q, Request(handles[k], size, 0));
      StaysExact(Home(LookAll(s, qs), q), q.handle, size, arrays[k], 0, end, size / 2);
    }
  }
}
