/**
 The draw calls with client arrays, in place on the host's array descriptors and shadow;
 their results are the functions of VertexPush.
 */
module VertexState {
  import opened Memory
  import opened VertexPush
  import opened Words

  class MesaVertex {
    var Color: VArray
    var EdgeFlag: VArray
    var Index: VArray
    var Normal: VArray
    var TexCoord: seq<VArray>
    var Vertex: VArray
    var SecondaryColor: VArray
    var FogCoord: VArray
    var Weight: VArray
    var GenAttrib: seq<VArray>
    var Interleaved: VArray
    var elemMax: nat
    var datacb: nat
    var szVertCache: nat
    var arrayBuf: nat
    var elemArryBuf: nat
    const heap: array<Byte>

    constructor (heap: array<Byte>, szVertCache: nat)
      ensures this.heap == heap && this.szVertCache == szVertCache && datacb == 0 && elemMax == 0
      ensures forall a :: a in Pushed() ==> !Active(a)
    {
      var none := VArray(false, 0, 0, 0);
      Color, EdgeFlag, Index, Normal, Vertex := none, none, none, none, none;
      SecondaryColor, FogCoord, Weight, Interleaved := none, none, none, none;
      TexCoord, GenAttrib := [none, none, none, none, none, none, none, none], [none, none];
      this.heap, this.szVertCache := heap, szVertCache;
      elemMax, datacb, arrayBuf, elemArryBuf := 0, 0, 0, 0;
    }

    // The arrays a push takes, in the order of the payload.
    function Pushed(): seq<VArray>
      reads this
    {
      if Active(Interleaved) then [Interleaved]
      else [Color, EdgeFlag, Index, Normal] + TexCoord + [Vertex, SecondaryColor, FogCoord, Weight] + GenAttrib
    }

    // Every array that is enabled is pushed, or the interleaved one alone in place of all.
    lemma EveryArrayPushed()
      ensures Interleaved.enable && Interleaved.ptr != 0 ==> Pushed() == [Interleaved]
      ensures !(Interleaved.enable && Interleaved.ptr != 0) ==>
                && Color in Pushed() && EdgeFlag in Pushed() && Index in Pushed() && Normal in Pushed()
                && Vertex in Pushed() && SecondaryColor in Pushed() && FogCoord in Pushed() && Weight in Pushed()
                && (forall a :: a in TexCoord ==> a in Pushed()) && (forall a :: a in GenAttrib ==> a in Pushed())
                && |Pushed()| == 8 + |TexCoord| + |GenAttrib|
    {
    }

    function Limit(): nat
      reads this
    {
      szVertCache / 2
    }

    // The blocks for the single arrays, as one loop over them.
    method PushVertexArray(data: array<Byte>, at: nat, start: nat, end: nat)
      requires start <= end && data != heap
      requires Pushable(Pushed(), at, start, end, Limit(), data.Length, heap.Length)
      modifies `datacb, `Interleaved, heap
      ensures heap[..] == AfterPush(old(heap[..]), data[..], at, old(Pushed()), start, end, Limit())
      ensures datacb == old(datacb) + Consumed(old(Pushed()), start, end)
      ensures Interleaved == if old(Active(Interleaved)) then old(Interleaved).(enable := false) else old(Interleaved)
    {
      hide DataWords, From, Room, Active, InBounds;
      var arrays, limit := Pushed(), Limit();
      var varry_ptr := at;
      ghost var mem, cb := heap[..], datacb;
      assert arrays[0..] == arrays;
      for i := 0 to |arrays|
        invariant at <= varry_ptr
        invariant varry_ptr + Consumed(arrays[i..], start, end) == at + Consumed(arrays, start, end)
        invariant InBounds(arrays[i..], start, end, limit, heap.Length)
        invariant PushAll(heap[..], data[..], varry_ptr, arrays[i..], start, end, limit)
               == PushAll(mem, data[..], at, arrays, start, end, limit)
        invariant datacb == cb + (varry_ptr - at)
        invariant Interleaved == old(Interleaved)
      {
        SuffixBounds(arrays, i, start, end, limit, heap.Length);
        if Active(arrays[i]) {
          FirstBounds(arrays[i..], start, end, limit, heap.Length);
          varry_ptr := PushArray(data, varry_ptr, arrays[i], start, end);
        }
      }
      assert arrays[|arrays|..] == [];
      if Active(Interleaved) {
        Interleaved := Interleaved.(enable := false);
      }
    }

    method PushArray(data: array<Byte>, at: nat, a: VArray, start: nat, end: nat) returns (next: nat)
      requires start <= end && data != heap
      requires at + 4 * PadEven(DataWords(a, start, end)) <= data.Length
      requires From(a, start) + Room(a, start, end, Limit()) <= heap.Length
      modifies `datacb, heap
      ensures at + Room(a, start, end, Limit()) <= data.Length
      ensures heap[..] == PushOne(old(heap[..]), data[..], at, a, start, end, Limit())
      ensures next == at + 4 * PadEven(DataWords(a, start, end)) && datacb == old(datacb) + (next - at)
    {
      hide Patched, PadEven, WordCount;
      PadWords(DataWords(a, start, end));
      var cbElem := if a.stride != 0 then a.stride else a.size;
      var n := WordCount(Mul(cbElem, end - start) + a.size);
      var room := if 4 * n > szVertCache / 2 then szVertCache / 2 else 4 * n;
      Memcpy(heap, a.ptr + Mul(cbElem, start), data, at, room);
      assert data[..][at..at + room] == data[at..at + room];
      next := at + if n % 2 != 0 then 4 * (n + 1) else 4 * n;
      datacb := datacb + if n % 2 != 0 then 4 * (n + 1) else 4 * n;
    }

    // glDrawArrays
    method DrawArrays(data: array<Byte>, first: nat, count: nat)
      requires data != heap
      requires count > 0 && arrayBuf == 0 ==>
                 Pushable(Pushed(), 0, first, first + count - 1, Limit(), data.Length, heap.Length)
      modifies `elemMax, `datacb, `Interleaved, heap
      ensures count == 0 || arrayBuf != 0 ==>
                heap[..] == old(heap[..]) && datacb == old(datacb) && elemMax == old(elemMax)
      ensures count > 0 && arrayBuf == 0 ==>
                && heap[..] == AfterPush(old(heap[..]), data[..], 0, old(Pushed()), first, first + count - 1, Limit())
                && datacb == old(datacb) + Consumed(old(Pushed()), first, first + count - 1)
                && elemMax == if first + count - 1 > old(elemMax) then first + count - 1 else old(elemMax)
    {
      hide AfterPush, Pushable, Consumed;
      if count > 0 && arrayBuf == 0 {
        elemMax := if first + count - 1 > elemMax then first + count - 1 else elemMax;
        PushVertexArray(data, 0, first, first + count - 1);
      }
    }

    // glDrawElements and its base-vertex forms: base is 0 without one.
    method DrawElements(data: array<Byte>, count: nat, w: nat, base: nat)
      requires data != heap && Scannable(data[..], w, count)
      requires elemArryBuf == 0 && arrayBuf == 0 ==>
                 Pushable(Pushed(), IndexRoom(w, count), Bottom(data[..], w, count) + base,
                     Top(data[..], w, count) + base,
                          Limit(), data.Length, heap.Length)
      modifies `elemMax, `datacb, `Interleaved, heap
      ensures elemArryBuf == 0 && arrayBuf == 0 ==>
                var start, end := Bottom(data[..], w, count) + base, Top(data[..], w, count) + base;
                && heap[..] == AfterPush(old(heap[..]), data[..], IndexRoom(w, count), old(Pushed()), start, end,
                    Limit())
                && datacb == IndexRoom(w, count) + Consumed(old(Pushed()), start, end)
      ensures elemArryBuf == 0 ==>
                var top := Top(data[..], w, count) + base;
                elemMax == if top > old(elemMax) then top else old(elemMax)
      ensures elemArryBuf == 0 && arrayBuf != 0 ==> datacb == IndexRoom(w, count)
      ensures elemArryBuf != 0 ==> datacb == old(datacb) && elemMax == old(elemMax)
      ensures elemArryBuf != 0 || arrayBuf != 0 ==> heap[..] == old(heap[..])
    {
      hide AfterPush, Pushable, Consumed, Top, Bottom, IndexRoom;
      if elemArryBuf == 0 {
        datacb := IndexRoom(w, count);
        var start, end := IndexRange(data[..], w, count);
        elemMax := if end + base > elemMax then end + base else elemMax;
        if arrayBuf == 0 {
          PushVertexArray(data, datacb, start + base, end + base);
        }
      }
    }
  }
}
