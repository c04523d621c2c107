/** Variable-length numbers, as the binary data inputs and outputs write them: seven
    bits a byte, the least significant first, the top bit set on all but the last. */
module Varint {
  import opened Bytes
  import opened Powers

  function Uvarint(n: nat): (s: seq<Byte>)
    ensures s != []
  {
    if n < 128 then [n] else [n % 128 + 128] + Uvarint(n / 128)
  }

  /** Reading from `pos`, `i` bytes of the number being read already: the value and
      the position after it, or nothing at the end of the file and for a number
      beyond 64 bits. */
  function UvarintFrom(f: seq<Byte>, pos: nat, i: nat): (r: Option<(nat, nat)>)
    ensures r.Some? ==> pos < r.value.1 <= |f|
    decreases 10 - i
  {
    if i >= 10 || pos >= |f| then None
    else if f[pos] < 128 then
      if i == 9 && f[pos] > 1 then None else Some((f[pos], pos + 1))
    else
      match UvarintFrom(f, pos + 1, i + 1)
      case None => None
      case Some(r) => Some((f[pos] - 128 + 128 * r.0, r.1))
  }

  function UvarintAt(f: seq<Byte>, pos: nat): (r: Option<(nat, nat)>)
    ensures r.Some? ==> pos < r.value.1 <= |f|
  {
    UvarintFrom(f, pos, 0)
  }

  lemma {:induction false} UvarintFromRoundTrip(f: seq<Byte>, pos: nat, i: nat, n: nat)
    requires At(f, pos, Uvarint(n)) && i <= 9 && n < 2 * Pow(128, 9 - i)
    ensures UvarintFrom(f, pos, i) == Some((n, pos + |Uvarint(n)|))
    decreases n
  {
    hide Pow, UvarintFrom;
    AtElement(f, pos, Uvarint(n), 0);
    PowDown(9 - i);
    if n < 128 {
      LastByte(f, pos, i, n);
    } else {
      AtSplit(f, pos, [n % 128 + 128], Uvarint(n / 128));
      UvarintFromRoundTrip(f, pos + 1, i + 1, n / 128);
      OneMoreByte(f, pos, i, n, pos + 1 + |Uvarint(n / 128)|);
    }
  }

  lemma OneMoreByte(f: seq<Byte>, pos: nat, i: nat, n: nat, end: nat)
    requires i < 9 && pos < |f| && n >= 128 && f[pos] == n % 128 + 128
    requires UvarintFrom(f, pos + 1, i + 1) == Some((n / 128, end))
    ensures UvarintFrom(f, pos, i) == Some((n, end))
  {
  }

  lemma LastByte(f: seq<Byte>, pos: nat, i: nat, n: nat)
    requires i <= 9 && pos < |f| && n < 128 && f[pos] == n && (i == 9 ==> n < 2)
    ensures UvarintFrom(f, pos, i) == Some((n, pos + 1))
  {
  }

  lemma PowDown(k: nat)
    ensures k == 0 ==> Pow(128, k) == 1
    ensures k > 0 ==> Pow(128, k) == 128 * Pow(128, k - 1)
  {
  }

  /** Every number of 64 bits is read back. */
  lemma UvarintRoundTrip(f: seq<Byte>, pos: nat, n: nat)
    requires At(f, pos, Uvarint(n)) && n < 0x1_0000_0000_0000_0000
    ensures UvarintAt(f, pos) == Some((n, pos + |Uvarint(n)|))
  {
    Pow1(128);
    PowAdd(128, 1, 1);
    PowAdd(128, 2, 2);
    PowAdd(128, 4, 4);
    PowAdd(128, 8, 1);
    UvarintFromRoundTrip(f, pos, 0, n);
  }

  /** A binary output: an append-only file. */
  class DataOutput {
    var data: seq<Byte>

    constructor ()
      ensures data == []
    {
      data := [];
    }

    function GetFilePointer(): nat
      reads this
    {
      |data|
    }

    method WriteUvarint(n: nat)
      modifies this
      ensures data == old(data) + Uvarint(n)
    {
      data := data + Uvarint(n);
    }

    method Write(bs: seq<Byte>)
      modifies this
      ensures data == old(data) + bs
    {
      data := data + bs;
    }
  }
}
