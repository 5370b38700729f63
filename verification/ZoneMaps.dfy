/** The zone map of mkfs_minix: setbit, clrbit and bit on bytes, and the zones they stand for. */
module ZoneMaps {
  import opened Bits

  // ---- One byte

  lemma ByteBits(v: byte)
    ensures |ToBits(v, 8)| == 8 && Val(ToBits(v, 8)) == v
  {
    hide *;
    Pow2Values();
    ValToBits(v, 8);
    ModSmall(v, Pow2(8));
  }

  lemma BitOfByte(v: byte, t: nat)
    requires t < 8
    ensures And(v, Pow2(t)) != 0 <==> ToBits(v, 8)[t]
  {
    ByteBits(v);
    AndBit(ToBits(v, 8), t);
  }

  lemma {:induction false} OrBit(s: seq<bool>, t: nat)
    requires t < |s|
    ensures Or(Val(s), Pow2(t)) == Val(s[t := true])
  {
    var s' := s[t := true];
    if t == 0 {
      assert s'[1..] == s[1..];
      OrOne(Val(s));
    } else {
      OrBit(s[1..], t - 1);
      assert s'[1..] == s[1..][t - 1 := true];
      OrStep(Val(s), Pow2(t));
    }
  }

  lemma OrOne(v: nat)
    ensures Or(v, 1) == 1 + 2 * (v / 2)
  {
    OrStep(v, 1);
    OrStep(v / 2, 0);
  }

  lemma OrStep(a: nat, b: nat)
    ensures Or(a, b) == (if a % 2 == 1 || b % 2 == 1 then 1 else 0) + 2 * Or(a / 2, b / 2)
    ensures Or(a, 0) == a
  {}

  lemma {:induction false} ClearBit(s: seq<bool>, t: nat)
    requires t < |s|
    ensures 2 * Pow2(t) <= Pow2(|s|)
    ensures And(Val(s), Pow2(|s|) - 1 - Pow2(t)) == Val(s[t := false])
  {
    hide *;
    Pow2Strict(t, |s|);
    if t == 0 {
      ClearFirst(s);
    } else {
      ClearBit(s[1..], t - 1);
      AndHalf(Val(s), Pow2(|s|) - 1 - Pow2(t));
      ClearLater(s, t);
    }
  }

  lemma ClearLater(s: seq<bool>, t: nat)
    requires 0 < t < |s| && 2 * Pow2(t) <= Pow2(|s|)
    ensures Val(s) / 2 == Val(s[1..]) && Val(s[t := false]) == Val(s) % 2 + 2 * Val(s[1..][t - 1 := false])
    ensures var m := Pow2(|s|) - 1 - Pow2(t);
            m % 2 == 1 && m / 2 == Pow2(|s| - 1) - 1 - Pow2(t - 1)
  {
    assert s[t := false][1..] == s[1..][t - 1 := false];
  }

  lemma ClearFirst(s: seq<bool>)
    requires |s| > 0
    ensures Pow2(0) == 1 && Pow2(|s|) >= 2 && And(Val(s), Pow2(|s|) - 2) == Val(s[0 := false])
  {
    assert s[0 := false][1..] == s[1..];
    AndHalf(Val(s), Pow2(|s|) - 2);
    ValBound(s[1..]);
    AndMask(Val(s[1..]), |s| - 1);
    ModSmall(Val(s[1..]), Pow2(|s| - 1));
    hide And;
  }

  lemma AndHalf(a: nat, b: nat)
    ensures And(a, b) == (if a % 2 == 1 && b % 2 == 1 then 1 else 0) + 2 * And(a / 2, b / 2)
  {}

  /** Setting and clearing bit t of a byte. */
  lemma SetInByte(v: byte, t: nat)
    requires t < 8
    ensures Or(v, Pow2(t)) < 256 && ToBits(Or(v, Pow2(t)), 8) == ToBits(v, 8)[t := true]
  {
    Pow2Values();
    ByteBits(v);
    var s := ToBits(v, 8)[t := true];
    OrBit(ToBits(v, 8), t);
    ValBound(s);
    ToBitsVal(s);
    hide ToBits, Val, Or, Pow2;
  }

  lemma ClearInByte(v: byte, t: nat)
    requires t < 8
    ensures Pow2(t) <= 255 && And(v, 255 - Pow2(t)) < 256 && ToBits(And(v, 255 - Pow2(t)), 8) == ToBits(v, 8)[t := false]
  {
    Pow2Values();
    ByteBits(v);
    var s := ToBits(v, 8)[t := false];
    ClearBit(ToBits(v, 8), t);
    ValBound(s);
    ToBitsVal(s);
    hide ToBits, Val, And, Pow2;
  }

  // ---- The map

  /** Bit i of the map. */
  ghost predicate BitAt(map_: seq<byte>, i: nat)
    requires i < 8 * |map_|
  {
    ToBits(map_[i / 8], 8)[i % 8]
  }

  class ZoneMap {
    const bytes: array<byte>
    const firstZone: nat
    const zones: nat

    /** The map has a bit for every zone of the data area, and one below. */
    ghost predicate Valid() {
      1 <= firstZone && firstZone <= zones && zones - firstZone + 1 <= 8 * bytes.Length
    }

    /** Zone x is marked in use. */
    ghost predicate Marked(x: nat)
      reads bytes
      requires Valid() && firstZone <= x < zones
    {
      BitAt(bytes[..], x - firstZone + 1)
    }

    constructor (firstZone: nat, zones: nat, size: nat)
      requires 1 <= firstZone <= zones && zones - firstZone + 1 <= 8 * size
      ensures Valid() && this.firstZone == firstZone && this.zones == zones && fresh(bytes)
    {
      this.firstZone, this.zones := firstZone, zones;
      bytes := new byte[size](_ => 0xff);
    }

    /** zone_in_use. */
    method InUse(x: nat) returns (r: bool)
      requires Valid() && firstZone <= x < zones
      ensures r == Marked(x)
    {
      var i := x - firstZone + 1;
      BitOfByte(bytes[i / 8], i % 8);
      r := And(bytes[i / 8], Pow2(i % 8)) != 0;
    }

    /** mark_zone. */
    method Mark(x: nat)
      requires Valid() && firstZone <= x < zones
      modifies bytes
      ensures forall y :: firstZone <= y < zones ==> Marked(y) == (y == x || old(Marked(y)))
    {
      var i := x - firstZone + 1;
      SetInByte(bytes[i / 8], i % 8);
      hide Or, ToBits, Pow2;
      bytes[i / 8] := Or(bytes[i / 8], Pow2(i % 8));
      forall y | firstZone <= y < zones
        ensures Marked(y) == (y == x || old(Marked(y)))
      {
        SameBit(i, y - firstZone + 1);
      }
    }

    /** unmark_zone. */
    method Unmark(x: nat)
      requires Valid() && firstZone <= x < zones
      modifies bytes
      ensures forall y :: firstZone <= y < zones ==> Marked(y) == (y != x && old(Marked(y)))
    {
      var i := x - firstZone + 1;
      ClearInByte(bytes[i / 8], i % 8);
      hide And, ToBits, Pow2;
      bytes[i / 8] := And(bytes[i / 8], 255 - Pow2(i % 8));
      forall y | firstZone <= y < zones
        ensures Marked(y) == (y != x && old(Marked(y)))
      {
        SameBit(i, y - firstZone + 1);
      }
    }
  }

  lemma SameBit(i: nat, j: nat)
    ensures i / 8 == j / 8 && i % 8 == j % 8 <==> i == j
  {}
}
