// The byte plumbing of the snapshot codec (server/src/Snapshot.cpp:16-98): fixed-width little-endian
// words, a writer that appends and a bounds-checked reader that latches its first failure.
//
// An encoding is described by what it puts in front of the bytes that follow: `U32Then(v, rest)`. Writing
// and reading are both stated with it, so that a structure is described by nesting its fields.
module Bytes {
  import opened Arithmetic

  type Byte = x: int | 0 <= x < 0x100
  type Word32 = x: int | 0 <= x < 0x1_0000_0000
  type Word64 = x: int | 0 <= x < 0x1_0000_0000_0000_0000
  type Int32 = x: int | -0x8000_0000 <= x < 0x8000_0000
  type Listed<T> = s: seq<T> | |s| < 0x1_0000_0000

  // ---- Little-endian words -------------------------------------------------------------------------

  function Pow256(n: nat): (p: nat)
    ensures p > 0
  {
    if n == 0 then 1 else 256 * Pow256(n - 1)
  }

  lemma Widths()
    ensures Pow256(1) == 0x100 && Pow256(4) == 0x1_0000_0000 && Pow256(8) == 0x1_0000_0000_0000_0000
  {
    assert Pow256(2) == 0x1_0000 && Pow256(3) == 0x100_0000;
    assert Pow256(5) == 0x100_0000_0000 && Pow256(6) == 0x1_0000_0000_0000 && Pow256(7) == 0x100_0000_0000_0000;
  }

  // The low n bytes of v, lowest first.
  function Little(v: nat, n: nat): (b: seq<Byte>)
    ensures |b| == n
  {
    if n == 0 then [] else [v % 256] + Little(v / 256, n - 1)
  }

  function FromLittle(b: seq<Byte>): nat {
    if b == [] then 0 else b[0] + 256 * FromLittle(b[1..])
  }

  lemma {:induction false} FromLittleOfLittle(v: nat, n: nat)
    requires v < Pow256(n)
    ensures FromLittle(Little(v, n)) == v
  {
    if n > 0 {
      FromLittleOfLittle(v / 256, n - 1);
      assert Little(v, n)[1..] == Little(v / 256, n - 1);
    }
  }

  lemma {:induction false} LittleOfFromLittle(b: seq<Byte>)
    ensures FromLittle(b) < Pow256(|b|) && Little(FromLittle(b), |b|) == b
  {
    if b != [] {
      LittleOfFromLittle(b[1..]);
      assert b == [b[0]] + b[1..];
      assert (b[0] + 256 * FromLittle(b[1..])) / 256 == FromLittle(b[1..]);
    }
  }

  lemma {:induction false} FromLittleAppend(b: seq<Byte>, x: Byte)
    ensures FromLittle(b + [x]) == FromLittle(b) + x * Pow256(|b|)
  {
    if b == [] {
      assert b + [x] == [x] && [x][1..] == [];
    } else {
      FromLittleAppend(b[1..], x);
      assert (b + [x])[1..] == b[1..] + [x];
    }
  }

  lemma {:induction false} LittleAppend(v: nat, n: nat)
    ensures Little(v, n + 1) == Little(v, n) + [v / Pow256(n) % 256]
  {
    if n > 0 {
      LittleAppend(v / 256, n - 1);
      assert v / 256 / Pow256(n - 1) == v / Pow256(n) by {
        DivideTwice(v, 256, Pow256(n - 1));
      }
    }
  }

  // ---- What each primitive puts in front ------------------------------------------------------------

  function LittleThen(v: nat, n: nat, rest: seq<Byte>): (b: seq<Byte>)
    ensures |b| == n + |rest|
  {
    Little(v, n) + rest
  }

  function U8Then(v: Byte, rest: seq<Byte>): (b: seq<Byte>)
    ensures |b| == 1 + |rest|
  {
    LittleThen(v, 1, rest)
  }

  function U32Then(v: Word32, rest: seq<Byte>): (b: seq<Byte>)
    ensures |b| == 4 + |rest|
  {
    LittleThen(v, 4, rest)
  }

  function U64Then(v: Word64, rest: seq<Byte>): (b: seq<Byte>)
    ensures |b| == 8 + |rest|
  {
    LittleThen(v, 8, rest)
  }

  // The two's complement cast between int and uint32.
  function AsWord(v: Int32): Word32 {
    if v < 0 then v + 0x1_0000_0000 else v
  }

  function AsInt(v: Word32): (i: Int32)
    ensures AsWord(i) == v
  {
    if v < 0x8000_0000 then v else v - 0x1_0000_0000
  }

  function I32Then(v: Int32, rest: seq<Byte>): (b: seq<Byte>)
    ensures |b| == 4 + |rest|
  {
    U32Then(AsWord(v), rest)
  }

  function BoolThen(v: bool, rest: seq<Byte>): (b: seq<Byte>)
    ensures |b| == 1 + |rest|
  {
    U8Then(if v then 1 else 0, rest)
  }

  // What was put in front can be taken off in one way only.
  lemma LittleUnique(v: nat, n: nat, rest: seq<Byte>, w: nat, tail: seq<Byte>)
    requires v < Pow256(n) && w < Pow256(n) && LittleThen(v, n, rest) == LittleThen(w, n, tail)
    ensures v == w && rest == tail
  {
    assert LittleThen(v, n, rest)[..n] == Little(v, n) && LittleThen(v, n, rest)[n..] == rest;
    assert LittleThen(w, n, tail)[..n] == Little(w, n) && LittleThen(w, n, tail)[n..] == tail;
    FromLittleOfLittle(v, n);
    FromLittleOfLittle(w, n);
  }

  // ---- Writer ---------------------------------------------------------------------------------------

  class ByteWriter {
    var bytes: seq<Byte>

    constructor ()
      ensures bytes == []
    {
      bytes := [];
    }

    // The low byte of v.
    method U8(v: Word64)
      modifies this
      ensures bytes == old(bytes) + [v % 256]
      ensures v < 256 ==> forall rest :: bytes + rest == old(bytes) + U8Then(v, rest)
    {
      bytes := bytes + [v % 256];
      if v < 256 {
        assert Little(v, 1) == [v];
        forall rest
          ensures bytes + rest == old(bytes) + U8Then(v, rest)
        {
        }
      }
    }

    method Word(v: Word64, n: nat)
      modifies this
      ensures bytes == old(bytes) + Little(v, n)
    {
      for i := 0 to n
        invariant bytes == old(bytes) + Little(v, i)
      {
        LittleAppend(v, i);
        Shrinks(v, Pow256(i));
        U8(v / Pow256(i));
      }
    }

    method U32(v: Word32)
      modifies this
      ensures forall rest :: bytes + rest == old(bytes) + U32Then(v, rest)
    {
      Word(v, 4);
    }

    method U64(v: Word64)
      modifies this
      ensures forall rest :: bytes + rest == old(bytes) + U64Then(v, rest)
    {
      Word(v, 8);
    }

    method I32(v: Int32)
      modifies this
      ensures forall rest :: bytes + rest == old(bytes) + I32Then(v, rest)
    {
      U32(AsWord(v));
    }

    method Bool(v: bool)
      modifies this
      ensures forall rest :: bytes + rest == old(bytes) + BoolThen(v, rest)
    {
      U8(if v then 1 else 0);
    }
  }

  lemma Shrinks(v: nat, d: nat)
    requires d > 0
    ensures v / d <= v
  {
    DivBounds(v, d);
    MulMono(1, d, v / d);
  }

  // ---- Reader ---------------------------------------------------------------------------------------

  class ByteReader {
    const data: seq<Byte>
    var pos: nat
    var ok: bool

    // No read ever passes the end.
    ghost predicate Valid()
      reads this
    {
      pos <= |data|
    }

    ghost function Rest(): (s: seq<Byte>)
      requires Valid()
      reads this
    {
      data[pos..]
    }

    constructor (data: seq<Byte>)
      ensures Valid() && ok && Rest() == data && this.data == data
    {
      this.data, pos, ok := data, 0, true;
    }

    function Remaining(): nat
      requires Valid()
      reads this
    {
      |data| - pos
    }

    method AtEnd() returns (end: bool)
      requires Valid()
      ensures end <==> Rest() == []
    {
      end := pos == |data|;
    }

    method Need(n: nat) returns (yes: bool)
      requires Valid()
      modifies `ok
      ensures ok == yes == (old(ok) && n <= Remaining())
    {
      if !ok || Remaining() < n {
        ok := false;
      }
      yes := ok;
    }

    // n bytes as one word. After the first violation every read yields 0 and moves nothing.
    method Word(n: nat) returns (v: nat)
      requires Valid()
      modifies `pos, `ok
      ensures Valid() && ok == (old(ok) && n <= |old(Rest())|)
      ensures if ok then v < Pow256(n) && old(Rest()) == LittleThen(v, n, Rest()) else v == 0 && pos == old(pos)
      ensures forall v0: nat, rest0 :: old(ok) && v0 < Pow256(n) && old(Rest()) == LittleThen(v0, n, rest0) ==> ok && v == v0 && Rest() == rest0
    {
      ghost var start := Rest();
      var enough := Need(n);
      if !enough {
        return 0;
      }
      v := 0;
      for i := 0 to n
        invariant Valid() && ok && pos == old(pos) + i && v == FromLittle(data[old(pos)..pos])
      {
        FromLittleAppend(data[old(pos)..pos], data[pos]);
        assert data[old(pos)..pos + 1] == data[old(pos)..pos] + [data[pos]];
        v := v + data[pos] * Pow256(i);
        pos := pos + 1;
      }
      LittleOfFromLittle(data[old(pos)..pos]);
      assert start == data[old(pos)..pos] + Rest();
      forall v0: nat, rest0 | v0 < Pow256(n) && start == LittleThen(v0, n, rest0)
        ensures v == v0 && Rest() == rest0
      {
        LittleUnique(v, n, Rest(), v0, rest0);
      }
    }

    method U8() returns (v: Byte)
      requires Valid()
      modifies `pos, `ok
      ensures Valid() && ok == (old(ok) && 1 <= |old(Rest())|)
      ensures if ok then old(Rest()) == U8Then(v, Rest()) else v == 0 && pos == old(pos)
      ensures forall v0: Byte, rest0 :: old(ok) && old(Rest()) == U8Then(v0, rest0) ==> ok && v == v0 && Rest() == rest0
    {
      Widths();
      v := Word(1);
    }

    method U32() returns (v: Word32)
      requires Valid()
      modifies `pos, `ok
      ensures Valid() && ok == (old(ok) && 4 <= |old(Rest())|)
      ensures if ok then old(Rest()) == U32Then(v, Rest()) else v == 0 && pos == old(pos)
      ensures forall v0: Word32, rest0 :: old(ok) && old(Rest()) == U32Then(v0, rest0) ==> ok && v == v0 && Rest() == rest0
    {
      Widths();
      v := Word(4);
    }

    method U64() returns (v: Word64)
      requires Valid()
      modifies `pos, `ok
      ensures Valid() && ok == (old(ok) && 8 <= |old(Rest())|)
      ensures if ok then old(Rest()) == U64Then(v, Rest()) else v == 0 && pos == old(pos)
      ensures forall v0: Word64, rest0 :: old(ok) && old(Rest()) == U64Then(v0, rest0) ==> ok && v == v0 && Rest() == rest0
    {
      Widths();
      v := Word(8);
    }

    method I32() returns (v: Int32)
      requires Valid()
      modifies `pos, `ok
      ensures Valid() && ok == (old(ok) && 4 <= |old(Rest())|)
      ensures if ok then old(Rest()) == I32Then(v, Rest()) else v == 0 && pos == old(pos)
      ensures forall v0: Int32, rest0 :: old(ok) && old(Rest()) == I32Then(v0, rest0) ==> ok && v == v0 && Rest() == rest0
    {
      var w := U32();
      v := AsInt(w);
    }

    // Anything but 0 and 1 is a violation, too.
    method Bool() returns (v: bool)
      requires Valid()
      modifies `pos, `ok
      ensures Valid() && (ok ==> old(ok) && old(Rest()) == BoolThen(v, Rest()))
      ensures !old(ok) ==> !v && pos == old(pos)
      ensures forall v0: bool, rest0 :: old(ok) && old(Rest()) == BoolThen(v0, rest0) ==> ok && v == v0 && Rest() == rest0
    {
      var b := U8();
      if b > 1 {
        ok := false;
      }
      v := b == 1;
    }

    // A collection size: refused beyond `limit`, or when the bytes left cannot hold that many elements.
    method Count(limit: nat, minElementBytes: nat) returns (n: Word32)
      requires Valid() && minElementBytes > 0
      modifies `pos, `ok
      ensures Valid()
      ensures if ok then old(ok) && old(Rest()) == U32Then(n, Rest()) && n <= limit && n * minElementBytes <= |Rest()| else n == 0
      ensures forall n0: Word32, rest0 :: old(ok) && old(Rest()) == U32Then(n0, rest0) ==>
                (ok <==> n0 <= limit && n0 * minElementBytes <= |rest0|) && (ok ==> n == n0 && Rest() == rest0)
    {
      n := U32();
      if !ok {
        return 0;
      }
      Divides(Remaining(), minElementBytes, n);
      if n > limit || n > Remaining() / minElementBytes {
        ok := false;
        return 0;
      }
    }
  }

  lemma Divides(a: nat, d: nat, n: nat)
    requires d > 0
    ensures n <= a / d <==> n * d <= a
  {
    DivBounds(a, d);
    MulNext(a / d, d);
    if n <= a / d {
      MulMono(n, a / d, d);
    } else {
      MulMono(a / d + 1, n, d);
    }
  }
}
