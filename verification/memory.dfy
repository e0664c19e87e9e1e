/**
 Byte memories and memcpy.
 */
module Memory {
  import opened Words

  // mem with bytes laid at an address.
  function Patched(mem: seq<Byte>, at: nat, bytes: seq<Byte>): (r: seq<Byte>)
    requires at + |bytes| <= |mem|
    ensures |r| == |mem|
    ensures forall p :: 0 <= p < |mem| ==> r[p] == if at <= p < at + |bytes| then bytes[p - at] else mem[p]
  {
    mem[..at] + bytes + mem[at + |bytes|..]
  }

  // memcpy between two memories.
  method Memcpy(dst: array<Byte>, d: nat, src: array<Byte>, s: nat, n: nat)
    requires dst != src && d + n <= dst.Length && s + n <= src.Length
    modifies dst
    ensures dst[..] == Patched(old(dst[..]), d, src[s..s + n])
  {
    hide Patched;
    for i := 0 to n
      invariant forall p :: 0 <= p < dst.Length ==> dst[p] == if d <= p < d + i then src[s + p - d] else old(dst[p])
    {
      dst[d + i] := src[s + i];
    }
    assert forall p :: 0 <= p < dst.Length ==> dst[p] == Patched(old(dst[..]), d, src[s..s + n])[p];
  }
}
