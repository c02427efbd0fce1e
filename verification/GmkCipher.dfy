// The substitution cipher of GMK files: the table made from a seed, its inverse, and
// reading through it one byte at a time or in blocks.
module GmkTables {
  newtype int32 = x: int | -0x8000_0000 <= x <= 0x7FFF_FFFF

  type Byte = b: int | 0 <= b < 256

  type Table = t: seq<Byte> | |t| == 256 witness seq(256, i => 0)

  /** The place of the i-th swap. */
  function SwapPlace(a: nat, b: nat, i: nat): (j: nat)
    ensures 1 <= j <= 254
  {
    1 + (i * a + b) % 254
  }

  function Swapped(t: Table, j: nat): Table
    requires j + 1 < 256
  {
    t[j := t[j + 1]][j + 1 := t[j]]
  }

  function Identity(): Table {
    seq(256, (i: int) requires 0 <= i < 256 => i as Byte)
  }

  /** The table after the first n swaps. */
  function Shuffled(a: nat, b: nat, n: nat): Table {
    if n == 0 then Identity() else Swapped(Shuffled(a, b, n - 1), SwapPlace(a, b, n))
  }

  function EncodeTable(seed: nat): Table {
    Shuffled(6 + seed % 250, seed / 250, 10000)
  }

  /** Each table undoes the other. */
  ghost predicate Inverses(t: Table, u: Table) {
    && (forall i :: 0 <= i < 256 ==> u[t[i]] == i)
    && (forall i :: 0 <= i < 256 ==> t[u[i]] == i)
  }

  ghost predicate Permutes(t: Table) {
    exists u: Table :: Inverses(t, u)
  }

  lemma SwapPermutes(t: Table, j: nat)
    requires 1 <= j < 255 && Permutes(t)
    ensures Permutes(Swapped(t, j)) && Swapped(t, j)[0] == t[0]
  {
    var u: Table :| Inverses(t, u);
    assert u[t[j]] == j && u[t[j + 1]] == j + 1;
    assert Inverses(Swapped(t, j), u[t[j] := j + 1][t[j + 1] := j]);
  }

  lemma IdentityPermutes()
    ensures Permutes(Identity()) && Identity()[0] == 0
  {
    assert Inverses(Identity(), Identity());
  }

  /** However many swaps are made the table is a permutation, and 0 stays where it is. */
  lemma {:induction false} ShufflePermutes(a: nat, b: nat, n: nat)
    ensures Permutes(Shuffled(a, b, n)) && Shuffled(a, b, n)[0] == 0
  {
    hide Permutes, Swapped, SwapPlace, Identity;
    if n == 0 {
      IdentityPermutes();
    } else {
      ShufflePermutes(a, b, n - 1);
      SwapPermutes(Shuffled(a, b, n - 1), SwapPlace(a, b, n));
    }
  }

  lemma SeedsPermute(seed: nat)
    ensures Permutes(EncodeTable(seed)) && EncodeTable(seed)[0] == 0
  {
    ShufflePermutes(6 + seed % 250, seed / 250, 10000);
  }

  // ---- one byte followed through the swaps ----

  /** Where swap i of a seed takes what stands at place p: one of two neighbours to the
      place of the other, everything else nowhere. */
  function Carried(seed: nat, i: nat, p: Byte): Byte {
    var left := (i * (seed % 250 + 6) + seed / 250) % 254 + 1;
    if p == left then left + 1 else if p == left + 1 then left else p
  }

  function PlaceAfter(seed: nat, n: nat, p: Byte): Byte {
    if n == 0 then p else Carried(seed, n, PlaceAfter(seed, n - 1, p))
  }

  lemma {:induction false} SwapsCarry(seed: nat, n: nat, p: Byte)
    ensures Shuffled(6 + seed % 250, seed / 250, n)[PlaceAfter(seed, n, p)] == p
  {
    hide Swapped, SwapPlace, Carried;
    if n > 0 {
      SwapsCarry(seed, n - 1, p);
      var q := PlaceAfter(seed, n - 1, p);
      CarriedIsSwap(seed, n, q);
      SwapCarries(Shuffled(6 + seed % 250, seed / 250, n - 1), SwapPlace(6 + seed % 250, seed / 250, n), q);
    }
  }

  lemma CarriedIsSwap(seed: nat, n: nat, q: Byte)
    ensures var j := SwapPlace(6 + seed % 250, seed / 250, n);
      Carried(seed, n, q) == if q == j then j + 1 else if q == j + 1 then j else q
  {
  }

  lemma SwapCarries(t: Table, j: nat, q: Byte)
    requires 1 <= j < 255
    ensures Swapped(t, j)[if q == j then j + 1 else if q == j + 1 then j else q] == t[q]
  {
  }

  /** Each byte stands in the seed's table where ten thousand swaps have carried it. */
  lemma TableIsTenThousandSwaps(seed: nat, p: Byte)
    ensures EncodeTable(seed)[PlaceAfter(seed, 10_000, p)] == p
  {
    SwapsCarry(seed, 10_000, p);
  }

  lemma OneInverse(t: Table, u: Table, v: Table)
    requires Inverses(t, u) && forall i :: 0 <= i < 256 ==> v[t[i]] == i
    ensures v == u
  {
    forall i | 0 <= i < 256 ensures v[i] == u[i] {
      assert t[u[i]] == i;
    }
  }

  ghost function DecodeTable(seed: nat): (u: Table)
    ensures Inverses(EncodeTable(seed), u)
  {
    SeedsPermute(seed);
    var u: Table :| Inverses(EncodeTable(seed), u);
    u
  }

  /** In int arithmetic of the source's width: nothing overflows, for any seed. */
  method MakeEncodeTable(seed: int32) returns (table: array<Byte>)
    requires seed >= 0
    ensures fresh(table) && table[..] == EncodeTable(seed as int)
  {
    table := new Byte[256](i => 0);
    var a: int32 := 6 + seed % 250;
    var b: int32 := seed / 250;
    for i := 0 to 256
      invariant forall k :: 0 <= k < i ==> table[k] == k
    {
      table[i] := i;
    }
    assert table[..] == Identity();
    var i: int32 := 1;
    while i < 10001
      invariant 1 <= i <= 10001
      invariant table[..] == Shuffled(a as int, b as int, i as int - 1)
    {
      ghost var was := table[..];
      assert 0 <= i as int * a as int <= 10000 * 255;
      var j: int32 := 1 + (i * a + b) % 254;
      assert j as int == SwapPlace(a as int, b as int, i as int);
      var t := table[j];
      table[j] := table[j + 1];
      table[j + 1] := t;
      assert table[..] == Swapped(was, j as int);
      i := i + 1;
    }
  }

  method MakeDecodeTable(encodeTable: array<Byte>) returns (table: array<Byte>)
    requires encodeTable.Length == 256 && Permutes(encodeTable[..])
    ensures fresh(table) && table.Length == 256 && Inverses(encodeTable[..], table[..])
  {
    table := new Byte[256](i => 0);
    ghost var encoded: Table := encodeTable[..];
    ghost var u: Table :| Inverses(encoded, u);
    for i := 0 to 256
      invariant forall k :: 0 <= k < i ==> table[encoded[k]] == k
    {
      assert forall k :: 0 <= k < i ==> u[encoded[k]] == k;
      table[encodeTable[i]] := i;
    }
    OneInverse(encoded, u, table[..]);
  }
}

module GmkDecoder {
  import opened Options
  import opened GmkTables

  /** Bytes being read: the first one stands at place start of the file. */
  datatype Input = Input(bytes: seq<Byte>, start: nat, next: nat) {
    predicate Has(n: nat) {
      next + n <= |bytes|
    }

    function Place(): nat {
      start + next
    }

    function Skip(n: nat): Input {
      this.(next := next + n)
    }
  }

  function DecodeByte(table: Option<Table>, raw: Byte, place: nat): Byte {
    match table
    case Some(t) => (t[raw] - place) % 256
    case None => raw
  }

  function Decoded(table: Option<Table>, raw: seq<Byte>, place: nat): seq<Byte> {
    seq(|raw|, (i: int) requires 0 <= i < |raw| => DecodeByte(table, raw[i], place + i))
  }

  function Block(input: Input, n: nat): seq<Byte>
    requires input.Has(n)
  {
    input.bytes[input.next..input.next + n]
  }

  /** n reads of one byte each. */
  function Singles(table: Option<Table>, input: Input, n: nat): seq<Byte>
    requires input.Has(n)
    decreases n
  {
    if n == 0 then []
    else [DecodeByte(table, input.bytes[input.next], input.Place())] + Singles(table, input.Skip(1), n - 1)
  }

  /** A block read gives what as many single reads would. */
  lemma {:induction false} BlockReadsAreSingleReads(table: Option<Table>, input: Input, n: nat)
    requires input.Has(n)
    ensures Decoded(table, Block(input, n), input.Place()) == Singles(table, input, n)
    decreases n
  {
    if n > 0 {
      BlockReadsAreSingleReads(table, input.Skip(1), n - 1);
      var all, rest := Block(input, n), Block(input.Skip(1), n - 1);
      assert all == [input.bytes[input.next]] + rest;
      assert Decoded(table, all, input.Place())
          == [DecodeByte(table, all[0], input.Place())] + Decoded(table, rest, input.Place() + 1);
    }
  }

  lemma NoTableNoChange(raw: seq<Byte>, place: nat)
    ensures Decoded(None, raw, place) == raw
  {
  }

  /** What a writer stores so that the reader sees these bytes. */
  function Encoded(seed: nat, plain: seq<Byte>, place: nat): seq<Byte> {
    seq(|plain|, (i: int) requires 0 <= i < |plain| => EncodeTable(seed)[(plain[i] + place + i) % 256])
  }

  lemma OneByteEach(t: Table, u: Table, raw: Byte, x: Byte, place: nat)
    requires Inverses(t, u)
    ensures DecodeByte(Some(u), raw, place) == x <==> raw == t[(x + place) % 256]
  {
    var shifted := (x + place) % 256;
    assert u[t[shifted]] == shifted && t[u[raw]] == raw;
  }

  /** Every sequence of bytes, at every place in the file, is read from exactly one stored
      sequence: the one its seed encodes. */
  lemma CipherIsInvertible(seed: nat, raw: seq<Byte>, plain: seq<Byte>, place: nat)
    ensures Decoded(Some(DecodeTable(seed)), raw, place) == plain <==> raw == Encoded(seed, plain, place)
  {
    hide Inverses, EncodeTable, DecodeTable, DecodeByte;
    var t, u := EncodeTable(seed), DecodeTable(seed);
    if |raw| == |plain| {
      forall i | 0 <= i < |raw|
        ensures Decoded(Some(u), raw, place)[i] == plain[i] <==> raw[i] == Encoded(seed, plain, place)[i]
      {
        OneByteEach(t, u, raw[i], plain[i], place + i);
      }
    }
  }

  class Decoder {
    const file: seq<Byte>
    var at: nat
    var zlibBuffer: Option<seq<Byte>>
    var zlibPos: nat
    var zlibStart: nat
    var decodeTable: array?<Byte>

    constructor (file: seq<Byte>)
      ensures this.file == file && at == 0 && zlibBuffer == None && decodeTable == null
    {
      this.file := file;
      at, zlibBuffer, zlibPos, zlibStart, decodeTable := 0, None, 0, 0, null;
    }

    predicate Valid()
      reads this
    {
      decodeTable != null ==> decodeTable.Length == 256
    }

    ghost function Table(): Option<Table>
      requires Valid()
      reads this, decodeTable
    {
      if decodeTable == null then None else Some(decodeTable[..])
    }

    /** Where the next byte comes from: the inflated buffer when there is one. */
    ghost function Source(): Input
      reads this
    {
      match zlibBuffer
      case Some(buffer) => Input(buffer, zlibStart, zlibPos)
      case None => Input(file, 0, at)
    }

    method SetSeed(seed: int32)
      requires Valid()
      modifies this`decodeTable
      ensures Valid() && Source() == old(Source())
      ensures seed < 0 ==> Table() == None
      ensures seed >= 0 ==> Table() == Some(DecodeTable(seed as int))
    {
      if seed >= 0 {
        var encodeTable := MakeEncodeTable(seed);
        SeedsPermute(seed as int);
        decodeTable := MakeDecodeTable(encodeTable);
        OneInverse(EncodeTable(seed as int), DecodeTable(seed as int), decodeTable[..]);
      } else {
        decodeTable := null;
      }
    }

    /** At the end of the file the stream's end mark -1 comes out, which no table decodes. */
    method Read() returns (r: int)
      requires Valid() && (Source().Has(1) || (zlibBuffer.None? && decodeTable == null))
      modifies this`at, this`zlibPos
      ensures Valid() && Table() == old(Table())
      ensures old(Source()).Has(1) ==>
        0 <= r < 256 && [r] == Singles(old(Table()), old(Source()), 1) && Source() == old(Source()).Skip(1)
      ensures !old(Source()).Has(1) ==> r == -1 && Source() == old(Source())
    {
      var byte: Byte;
      var pos := at;
      if zlibBuffer.Some? {
        pos := zlibStart + zlibPos;
        byte := zlibBuffer.value[zlibPos];
        zlibPos := zlibPos + 1;
      } else {
        if at >= |file| { return -1; }
        byte := file[at];
        at := at + 1;
      }
      if decodeTable != null {
        return (decodeTable[byte] - pos) % 256;
      }
      return byte;
    }

    method ReadBlock(bytes: array<Byte>, length: nat)
      requires Valid() && Source().Has(length) && length <= bytes.Length && bytes != decodeTable
      modifies this`at, this`zlibPos, bytes
      ensures Valid() && Table() == old(Table()) && Source() == old(Source()).Skip(length)
      ensures bytes[..length] == Singles(old(Table()), old(Source()), length)
      ensures bytes[length..] == old(bytes[length..])
    {
      hide Singles, Decoded, DecodeByte;
      ghost var raw, place := Block(Source(), length), Source().Place();
      BlockReadsAreSingleReads(Table(), Source(), length);
      var pos := at;
      if zlibBuffer.Some? {
        pos := zlibStart + zlibPos;
        Copy(bytes, zlibBuffer.value, zlibPos, length);
        zlibPos := zlibPos + length;
      } else {
        Copy(bytes, file, at, length);
        at := at + length;
      }
      if decodeTable != null {
        DecodeInPlace(bytes, length, pos);
      } else {
        NoTableNoChange(raw, place);
      }
    }

    method DecodeInPlace(bytes: array<Byte>, length: nat, pos: nat)
      requires Valid() && decodeTable != null && length <= bytes.Length && bytes != decodeTable
      modifies bytes
      ensures bytes[..length] == Decoded(Table(), old(bytes[..length]), pos)
      ensures bytes[length..] == old(bytes[length..])
    {
      for i := 0 to length
        invariant bytes[length..] == old(bytes[length..])
        invariant forall k :: 0 <= k < i ==> bytes[k] == DecodeByte(Table(), old(bytes[k]), pos + k)
        invariant forall k :: i <= k < length ==> bytes[k] == old(bytes[k])
      {
        var t := bytes[i];
        bytes[i] := (decodeTable[t] - pos - i) % 256;
      }
    }

    static method Copy(bytes: array<Byte>, from: seq<Byte>, start: nat, length: nat)
      requires length <= bytes.Length && start + length <= |from|
      modifies bytes
      ensures bytes[..length] == from[start..start + length] && bytes[length..] == old(bytes[length..])
    {
      for i := 0 to length
        invariant bytes[..i] == from[start..start + i] && bytes[length..] == old(bytes[length..])
      {
        bytes[i] := from[start + i];
      }
    }
  }
}
