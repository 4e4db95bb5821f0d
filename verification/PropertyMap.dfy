/**
 * Property maps (EPC 0x9D, 0x9E and 0x9F): a count followed by a list of codes when there are fewer than
 * sixteen, and a count followed by a 16-byte bitmap otherwise (Appendix 1 of the "Detailed Requirements
 * for ECHONET Device Objects").
 */
module PropertyMap {
  import opened Bytes

  /** Bit k of b, counted from the least significant. */
  predicate Bit(b: nat, k: nat) {
    if k == 0 then b % 2 == 1 else Bit(b / 2, k - 1)
  }

  /** Row r of the bitmap (its byte r + 1) holds the codes whose low nibble is r, one per bit from 0x80 up. */
  predicate Marked(bitmap: seq<Byte>, epc: Byte)
    requires |bitmap| >= 17
  {
    0x80 <= epc && Bit(bitmap[1 + epc as int % 16], epc as int / 16 - 8)
  }

  /** The set a property map stands for. */
  function MapOf(edt: seq<Byte>): set<Byte> {
    if |edt| < 17 then set i | 1 <= i < |edt| :: edt[i]
    else set epc: Byte | Marked(edt, epc)
  }

  method DecodePropertyMap(edt: seq<Byte>) returns (out: set<Byte>)
    ensures out == MapOf(edt)
  {
    out := {};
    if |edt| == 0 {
      return;
    }
    if |edt| < 17 {
      for i := 1 to |edt|
        invariant out == set j | 1 <= j < i :: edt[j]
      {
        out := out + {edt[i]};
      }
      return;
    }
    for i := 1 to 17
      invariant out == set epc: Byte | Marked(edt, epc) && epc as int % 16 < i - 1
    {
      var code := i - 1;
      var bits := edt[i];
      for bit := 0 to 8
        invariant out == set epc: Byte | Marked(edt, epc) &&
            (epc as int % 16 < code || (epc as int % 16 == code && epc < (bit + 8) * 16))
      {
        var epc: Byte := (bit + 8) * 0x10 + code;
        assert epc as int / 16 - 8 == bit && epc as int % 16 == code;
        assert Marked(edt, epc) <==> Bit(bits, bit);
        if Bit(bits, bit) {
          out := out + {epc};
        }
      }
    }
  }

  // ----- The standard's encoding -----

  /** The members of s from code k on, in ascending order. */
  function Members(s: set<Byte>, k: nat): seq<Byte>
    requires k <= 256
    decreases 256 - k, s
  {
    if k == 256 then [] else (if k in s then [k] else []) + Members(s, k + 1)
  }

  /** Bits k to 7 of a bitmap row, as a number. */
  function RowFrom(s: set<Byte>, row: nat, k: nat): (r: nat)
    requires row < 16 && k <= 8
    ensures r < Power2(8 - k)
    decreases 8 - k, s
  {
    if k == 8 then 0 else (if (k + 8) * 16 + row in s then 1 else 0) + 2 * RowFrom(s, row, k + 1)
  }

  function Row(s: set<Byte>, row: nat): Byte
    requires row < 16
  {
    Power2Of8();
    RowFrom(s, row, 0)
  }

  function EncodeMap(s: set<Byte>): seq<Byte> {
    [|s| % 256] + if |s| < 16 then Members(s, 0) else seq(16, i requires 0 <= i < 16 => Row(s, i))
  }

  lemma {:induction false} MembersCount(s: set<Byte>, k: nat)
    requires k <= 256
    ensures |Members(s, k)| == |set e | e in s && e >= k|
    decreases 256 - k
  {
    if k == 256 {
      assert (set e | e in s && e >= k) == {};
    } else {
      MembersCount(s, k + 1);
      OneBelow(s, k);
    }
  }

  lemma {:induction false} MembersOf(s: set<Byte>, k: nat, e: Byte)
    requires k <= 256
    ensures e in Members(s, k) <==> e in s && e >= k
    decreases 256 - k
  {
    if k < 256 {
      MembersOf(s, k + 1, e);
    }
  }

  lemma OneBelow(s: set<Byte>, k: Byte)
    ensures |set e | e in s && e >= k| == |set e | e in s && e >= k + 1| + if k in s then 1 else 0
  {
    var from, above := set e | e in s && e >= k, set e | e in s && e >= k + 1;
    assert from == if k in s then {k} + above else above;
    assert k !in above;
  }

  lemma {:induction false} RowBits(s: set<Byte>, row: nat, k: nat, bit: nat)
    requires row < 16 && k + bit < 8
    ensures Bit(RowFrom(s, row, k), bit) <==> (k + bit + 8) * 16 + row in s
    decreases bit
  {
    if bit == 0 {
    } else {
      RowBits(s, row, k + 1, bit - 1);
    }
  }

  lemma ListElements(count: Byte, list: seq<Byte>)
    requires |list| < 16
    ensures MapOf([count] + list) == set e | e in list
  {
    var edt := [count] + list;
    forall e | e in list ensures e in MapOf(edt) {
      var j :| 0 <= j < |list| && list[j] == e;
      assert edt[j + 1] == e;
    }
  }

  lemma ListRoundTrip(s: set<Byte>)
    requires |s| < 16
    ensures MapOf(EncodeMap(s)) == s
  {
    MembersCount(s, 0);
    forall e ensures e in Members(s, 0) <==> e in s {
      MembersOf(s, 0, e);
    }
    var list := Members(s, 0);
    assert s == set e | e in s && e >= 0;
    assert EncodeMap(s) == [|s|] + list;
    ListElements(|s|, list);
    assert (set e | e in list) == s;
  }

  lemma BitmapRoundTrip(s: set<Byte>)
    requires |s| >= 16
    requires forall e :: e in s ==> e >= 0x80
    ensures MapOf(EncodeMap(s)) == s
  {
    var edt := EncodeMap(s);
    forall epc: Byte ensures Marked(edt, epc) <==> epc in s {
      if 0x80 <= epc {
        var row, bit := epc as int % 16, epc as int / 16 - 8;
        assert edt[1 + row] == Row(s, row);
        RowBits(s, row, 0, bit);
        assert (bit + 8) * 16 + row == epc as int;
      }
    }
  }

  /** Decoding inverts the standard's encoding, in both formats, for every set of device property codes. */
  lemma MapRoundTrip(s: set<Byte>)
    requires forall e :: e in s ==> e >= 0x80
    ensures MapOf(EncodeMap(s)) == s
  {
    if |s| < 16 {
      ListRoundTrip(s);
    } else {
      BitmapRoundTrip(s);
    }
  }

  /** A bitmap never names a code below 0x80, and bytes after the seventeenth have no effect. */
  lemma BitmapIgnoresTail(edt: seq<Byte>)
    requires |edt| >= 17
    ensures MapOf(edt) == MapOf(edt[..17])
    ensures forall e :: e in MapOf(edt) ==> e >= 0x80
  {
  }

  /** Fewer than 16 codes are listed after their number. */
  lemma ListedMap()
    ensures MapOf([2, 0x80, 0xB0]) == {0x80, 0xB0}
  {
    var list: seq<Byte> := [0x80, 0xB0];
    ListElements(2, list);
    assert [2] + list == [2, 0x80, 0xB0];
    assert list[0] == 0x80 && list[1] == 0xB0;
    assert (set e | e in list) == {0x80, 0xB0};
  }

  /**
   * In a map of 17 bytes or more, byte r holds the codes whose low digit is r - 1, the lowest bit standing for 0x80 to
   * 0x8F.
   */
  lemma BitmapByte(edt: seq<Byte>, row: nat, bit: nat)
    requires |edt| >= 17 && row < 16 && bit < 8
    ensures (bit + 8) * 16 + row in MapOf(edt) <==> edt[row + 1] as int / [1, 2, 4, 8, 16, 32, 64, 128][bit] % 2 == 1
  {
    BitValue(edt[row + 1], bit);
    var epc := (bit + 8) * 16 + row;
    assert epc % 16 == row && epc / 16 == bit + 8;
  }

  lemma BitValue(b: Byte, bit: nat)
    requires bit < 8
    ensures Bit(b, bit) <==> b as int / [1, 2, 4, 8, 16, 32, 64, 128][bit] % 2 == 1
  {
  }
}
