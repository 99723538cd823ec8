/** Fixed-width big-endian integers as `encoding/binary` writes and reads them. */
module Bytes {
  type Byte = x: int | 0 <= x < 256
  type Int8 = x: int | -0x80 <= x < 0x80
  type Int16 = x: int | -0x8000 <= x < 0x8000
  type Int32 = x: int | -0x8000_0000 <= x < 0x8000_0000
  type Int64 = x: int | -0x8000_0000_0000_0000 <= x < 0x8000_0000_0000_0000

  datatype Option<+T> = None | Some(value: T)

  function Min(a: int, b: int): (m: int) { if a < b then a else b }
  function Max(a: int, b: int): (m: int) { if a < b then b else a }

  /** Go's conversions to a narrower signed integer type. */
  function ToInt16(x: int): (r: Int16) { (x + 0x8000) % 0x1_0000 - 0x8000 }
  function ToInt32(x: int): (r: Int32) { (x + 0x8000_0000) % 0x1_0000_0000 - 0x8000_0000 }
  function ToInt64(x: int): (r: Int64) { (x + 0x8000_0000_0000_0000) % 0x1_0000_0000_0000_0000 - 0x8000_0000_0000_0000 }

  function Pow256(w: nat): (r: nat) { if w == 0 then 1 else 256 * Pow256(w - 1) }

  function PutUint(n: nat, w: nat): (s: seq<Byte>)
    ensures |s| == w
  {
    if w == 0 then [] else PutUint(n / 256, w - 1) + [n % 256]
  }

  function GetUint(s: seq<Byte>): (r: nat)
  {
    if s == [] then 0 else 256 * GetUint(s[..|s| - 1]) + s[|s| - 1]
  }

  lemma {:induction false} GetPutUint(n: nat, w: nat)
    requires n < Pow256(w)
    ensures GetUint(PutUint(n, w)) == n
  {
    if w > 0 {
      GetPutUint(n / 256, w - 1);
      var s := PutUint(n, w);
      assert s[..|s| - 1] == PutUint(n / 256, w - 1);
    }
  }

  lemma {:induction false} GetUintBound(s: seq<Byte>)
    ensures GetUint(s) < Pow256(|s|)
  {
    if s != [] {
      GetUintBound(s[..|s| - 1]);
    }
  }

  lemma Powers()
    ensures Pow256(1) == 0x100
    ensures Pow256(2) == 0x1_0000
    ensures Pow256(4) == 0x1_0000_0000
    ensures Pow256(8) == 0x1_0000_0000_0000_0000
  {
    assert Pow256(3) == 256 * Pow256(2);
    assert Pow256(5) == 256 * Pow256(4);
    assert Pow256(6) == 256 * Pow256(5);
    assert Pow256(7) == 256 * Pow256(6);
  }

  function Put8(x: int): (s: seq<Byte>) ensures |s| == 1 { PutUint(x % 0x100, 1) }
  function Put16(x: int): (s: seq<Byte>) ensures |s| == 2 { PutUint(x % 0x1_0000, 2) }
  function Put32(x: int): (s: seq<Byte>) ensures |s| == 4 { PutUint(x % 0x1_0000_0000, 4) }
  function Put64(x: int): (s: seq<Byte>) ensures |s| == 8 { PutUint(x % 0x1_0000_0000_0000_0000, 8) }

  function Get8(s: seq<Byte>): (r: Int8)
    requires |s| == 1
  {
    GetUintBound(s); Powers();
    var n := GetUint(s);
    if n < 0x80 then n else n - 0x100
  }

  function GetU16(s: seq<Byte>): (r: nat) { GetUint(s) }

  function Get16(s: seq<Byte>): (r: Int16)
    requires |s| == 2
  {
    GetUintBound(s); Powers();
    ToInt16(GetUint(s))
  }

  function Get32(s: seq<Byte>): (r: Int32)
    requires |s| == 4
  {
    GetUintBound(s); Powers();
    ToInt32(GetUint(s))
  }

  function Get64(s: seq<Byte>): (r: Int64)
    requires |s| == 8
  {
    GetUintBound(s); Powers();
    ToInt64(GetUint(s))
  }

  /** A write followed by a read performs exactly the narrowing conversion. */
  lemma GetPut8(x: Int8) ensures Get8(Put8(x)) == x { Powers(); GetPutUint(x % 0x100, 1); }
  lemma GetPutU16(x: int) ensures GetU16(Put16(x)) == x % 0x1_0000 { Powers(); GetPutUint(x % 0x1_0000, 2); }
  lemma GetPut16(x: int) ensures Get16(Put16(x)) == ToInt16(x) { Powers(); GetPutUint(x % 0x1_0000, 2); }
  lemma GetPut32(x: int) ensures Get32(Put32(x)) == ToInt32(x) { Powers(); GetPutUint(x % 0x1_0000_0000, 4); }
  lemma GetPut64(x: int) ensures Get64(Put64(x)) == ToInt64(x) { Powers(); GetPutUint(x % 0x1_0000_0000_0000_0000, 8); }

  /** A run of int64 fields. */
  function Put64s(xs: seq<Int64>): (s: seq<Byte>)
    ensures |s| == 8 * |xs|
  {
    if xs == [] then [] else Put64(xs[0]) + Put64s(xs[1..])
  }

  /** The i-th int64 of a buffer; zero when the buffer ends before it, as a failed `binary.Read` leaves it. */
  function Slot(s: seq<Byte>, i: nat): (r: Int64)
  {
    if 8 * i + 8 <= |s| then Get64(s[8 * i..8 * i + 8]) else 0
  }

  lemma {:induction false} SlotOfPut64s(xs: seq<Int64>, rest: seq<Byte>, i: nat)
    requires i < |xs|
    ensures Slot(Put64s(xs) + rest, i) == xs[i]
  {
    hide Put64, Get64;
    var s := Put64s(xs) + rest;
    if i == 0 {
      assert s[0..8] == Put64(xs[0]);
      GetPut64(xs[0]);
    } else {
      var tail := Put64s(xs[1..]) + rest;
      SlotOfPut64s(xs[1..], rest, i - 1);
      assert s == Put64(xs[0]) + tail;
      assert s[8 * i..8 * i + 8] == tail[8 * (i - 1)..8 * (i - 1) + 8];
    }
  }

  lemma SlotsOfPut64s(xs: seq<Int64>, rest: seq<Byte>)
    ensures forall i :: 0 <= i < |xs| ==> Slot(Put64s(xs) + rest, i) == xs[i]
  {
    forall i | 0 <= i < |xs| ensures Slot(Put64s(xs) + rest, i) == xs[i] {
      SlotOfPut64s(xs, rest, i);
    }
  }

  lemma {:induction false} Put64sAppend(xs: seq<Int64>, ys: seq<Int64>)
    ensures Put64s(xs + ys) == Put64s(xs) + Put64s(ys)
  {
    hide Put64;
    if xs == [] {
      assert xs + ys == ys;
    } else {
      var all := xs + ys;
      assert all[0] == xs[0] && all[1..] == xs[1..] + ys;
      Put64sAppend(xs[1..], ys);
      assert Put64s(all) == Put64(xs[0]) + Put64s(all[1..]);
    }
  }
}
