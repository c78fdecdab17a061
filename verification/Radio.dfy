/** The source address table of the CC2530 radio and the three views decoded from it. */
module Radio {
  type Byte = bv8

  const TABLE_START := 0x6100
  const TABLE_END := 0x615F
  const TABLE_SIZE: nat := 96

  // ---------- the reference: views decoded from bytes ----------

  function Half(lo: Byte, hi: Byte): bv16 {
    (lo as bv16) | ((hi as bv16) << 8)
  }

  function Full(b0: Byte, b1: Byte, b2: Byte, b3: Byte): bv32 {
    (b0 as bv32) | ((b1 as bv32) << 8) | ((b2 as bv32) << 16) | ((b3 as bv32) << 24)
  }

  predicate IsTable(t: seq<Byte>) {
    |t| == TABLE_SIZE
  }

  function PanOf(t: seq<Byte>, i: nat): bv16
    requires IsTable(t) && i < 24
  {
    Half(t[4 * i], t[4 * i + 1])
  }

  function ShortOf(t: seq<Byte>, i: nat): bv16
    requires IsTable(t) && i < 24
  {
    Half(t[4 * i + 2], t[4 * i + 3])
  }

  /** Half `n` of extended address `i`, the low half first. */
  function ExtOf(t: seq<Byte>, i: nat, n: nat): bv32
    requires IsTable(t) && i < 12 && n < 2
  {
    var p := 8 * i + 4 * n;
    Full(t[p], t[p + 1], t[p + 2], t[p + 3])
  }

  // ---------- the masked updates ----------

  function SetLow(w: bv16, v: Byte): bv16 {
    (w & 0xFF00) + (v as bv16)
  }

  function SetHigh(w: bv16, v: Byte): bv16 {
    (w & 0x00FF) + ((v as bv16) << 8)
  }

  /** A shift by `j` bytes. */
  function ByteShift(x: bv32, j: nat): bv32
    requires j < 4
  {
    match j
    case 0 => x
    case 1 => x << 8
    case 2 => x << 16
    case _ => x << 24
  }

  /** Byte `j` of a 32-bit word replaced. */
  function SetByte(w: bv32, j: nat, v: Byte): bv32
    requires j < 4
  {
    (w & (ByteShift(0xFF, j) ^ 0xFFFFFFFF)) | ByteShift(v as bv32, j)
  }

  lemma SetLowDecodes(lo: Byte, hi: Byte, v: Byte)
    ensures SetLow(Half(lo, hi), v) == Half(v, hi)
  {
  }

  lemma SetHighDecodes(lo: Byte, hi: Byte, v: Byte)
    ensures SetHigh(Half(lo, hi), v) == Half(lo, v)
  {
  }

  lemma SetByte0(b0: Byte, b1: Byte, b2: Byte, b3: Byte, v: Byte)
    ensures SetByte(Full(b0, b1, b2, b3), 0, v) == Full(v, b1, b2, b3)
  {
  }

  lemma SetByte1(b0: Byte, b1: Byte, b2: Byte, b3: Byte, v: Byte)
    ensures SetByte(Full(b0, b1, b2, b3), 1, v) == Full(b0, v, b2, b3)
  {
  }

  lemma SetByte2(b0: Byte, b1: Byte, b2: Byte, b3: Byte, v: Byte)
    ensures SetByte(Full(b0, b1, b2, b3), 2, v) == Full(b0, b1, v, b3)
  {
  }

  lemma SetByte3(b0: Byte, b1: Byte, b2: Byte, b3: Byte, v: Byte)
    ensures SetByte(Full(b0, b1, b2, b3), 3, v) == Full(b0, b1, b2, v)
  {
  }

  /** Writing a byte of the table replaces it in the word that holds it. */
  lemma ExtAfter(t: seq<Byte>, k: nat, v: Byte, i: nat, n: nat)
    requires IsTable(t) && k < TABLE_SIZE && i < 12 && n < 2
    ensures var p := 8 * i + 4 * n;
            ExtOf(t[k := v], i, n) == if p <= k < p + 4 then SetByte(ExtOf(t, i, n), k - p, v) else ExtOf(t, i, n)
  {
    var p := 8 * i + 4 * n;
    hide SetByte, Full;
    if k == p {
      SetByte0(t[p], t[p + 1], t[p + 2], t[p + 3], v);
    } else if k == p + 1 {
      SetByte1(t[p], t[p + 1], t[p + 2], t[p + 3], v);
    } else if k == p + 2 {
      SetByte2(t[p], t[p + 1], t[p + 2], t[p + 3], v);
    } else if k == p + 3 {
      SetByte3(t[p], t[p + 1], t[p + 2], t[p + 3], v);
    }
  }

  /** The halves of an extended address are the PAN identifier and short address of the same bytes. */
  lemma FullIsTwoHalves(b0: Byte, b1: Byte, b2: Byte, b3: Byte)
    ensures Full(b0, b1, b2, b3) == (Half(b0, b1) as bv32) | ((Half(b2, b3) as bv32) << 16)
  {
  }

  lemma ExtSplits(t: seq<Byte>, i: nat, n: nat)
    requires IsTable(t) && i < 12 && n < 2
    ensures ExtOf(t, i, n) == (PanOf(t, 2 * i + n) as bv32) | ((ShortOf(t, 2 * i + n) as bv32) << 16)
  {
    FullIsTwoHalves(t[8 * i + 4 * n], t[8 * i + 4 * n + 1], t[8 * i + 4 * n + 2], t[8 * i + 4 * n + 3]);
  }

  // ---------- the object ----------

  /** The offset of a cell in the table; None outside it. */
  datatype Option<T> = None | Some(value: T)

  function WithinRange(address: int): Option<nat> {
    if TABLE_START <= address <= TABLE_END then Some(address - TABLE_START) else None
  }

  class AddressTable {
    const PanId: array<bv16>
    const shortAddr: array<bv16>
    const ExtAddr: array2<bv32>

    ghost predicate Valid()
    {
      && PanId.Length == shortAddr.Length == 24 && ExtAddr.Length0 == 12 && ExtAddr.Length1 == 2
      && PanId != shortAddr
    }

    /** The three views are the decodings of the same bytes. */
    ghost predicate Caches(t: seq<Byte>)
      requires Valid() && IsTable(t)
      reads PanId, shortAddr, ExtAddr
    {
      && (forall i :: 0 <= i < 24 ==> PanId[i] == PanOf(t, i))
      && (forall i :: 0 <= i < 24 ==> shortAddr[i] == ShortOf(t, i))
      && (forall i, n :: 0 <= i < 12 && 0 <= n < 2 ==> ExtAddr[i, n] == ExtOf(t, i, n))
    }

    constructor ()
      ensures Valid() && fresh(PanId) && fresh(shortAddr) && fresh(ExtAddr)
      ensures Caches(seq(TABLE_SIZE, _ => 0xCC))
    {
      PanId := new bv16[24](_ => 0xCCCC);
      shortAddr := new bv16[24](_ => 0xCCCC);
      ExtAddr := new bv32[12, 2]((_, _) => 0xCCCCCCCC);
    }

    /** A write to a memory cell, before the cell takes the value. */
    method Write(address: int, val: Byte, ghost t: seq<Byte>)
      requires Valid() && IsTable(t) && Caches(t)
      modifies PanId, shortAddr, ExtAddr
      ensures Caches(match WithinRange(address) case Some(k) => t[k := val] case None => t)
    {
      match WithinRange(address)
      case None =>
      case Some(cellNumber) =>
        WriteHalves(cellNumber, val, t);
        WriteExt(cellNumber, val, t);
    }

    method WriteHalves(cellNumber: nat, val: Byte, ghost t: seq<Byte>)
      requires Valid() && IsTable(t) && Caches(t) && cellNumber < TABLE_SIZE
      modifies PanId, shortAddr
      ensures forall i :: 0 <= i < 24 ==> PanId[i] == PanOf(t[cellNumber := val], i)
      ensures forall i :: 0 <= i < 24 ==> shortAddr[i] == ShortOf(t[cellNumber := val], i)
    {
      var idx := cellNumber / 4;
      ghost var p := 4 * idx;
      match cellNumber - 4 * idx
      case 0 =>
        PanId[idx] := SetLow(PanId[idx], val);
        SetLowDecodes(t[p], t[p + 1], val);
      case 1 =>
        PanId[idx] := SetHigh(PanId[idx], val);
        SetHighDecodes(t[p], t[p + 1], val);
      case 2 =>
        shortAddr[idx] := SetLow(shortAddr[idx], val);
        SetLowDecodes(t[p + 2], t[p + 3], val);
      case _ =>
        shortAddr[idx] := SetHigh(shortAddr[idx], val);
        SetHighDecodes(t[p + 2], t[p + 3], val);
    }

    method WriteExt(cellNumber: nat, val: Byte, ghost t: seq<Byte>)
      requires Valid() && IsTable(t) && cellNumber < TABLE_SIZE
      requires forall i, n :: 0 <= i < 12 && 0 <= n < 2 ==> ExtAddr[i, n] == ExtOf(t, i, n)
      modifies ExtAddr
      ensures forall i, n :: 0 <= i < 12 && 0 <= n < 2 ==> ExtAddr[i, n] == ExtOf(t[cellNumber := val], i, n)
    {
      var idx := cellNumber / 4 / 2;
      var j := cellNumber - 8 * idx;
      var n := 0;
      if j >= 4 {
        n := 1;
        j := j - 4;
      }
      hide ExtOf, SetByte;
      forall i, m | 0 <= i < 12 && 0 <= m < 2
        ensures ExtOf(t[cellNumber := val], i, m) ==
                if i == idx && m == n then SetByte(ExtOf(t, i, m), j, val) else ExtOf(t, i, m)
      {
        ExtAfter(t, cellNumber, val, i, m);
      }
      ExtAddr[idx, n] := SetByte(ExtAddr[idx, n], j, val);
    }
  }

  // ---------- every run ----------

  /** The table after some writes to memory cells. */
  function Written(t: seq<Byte>, writes: seq<(int, Byte)>): (r: seq<Byte>)
    requires IsTable(t)
    ensures IsTable(r)
    decreases |writes|
  {
    if writes == [] then t
    else
      Written(match WithinRange(writes[0].0) case Some(k) => t[k := writes[0].1] case None => t, writes[1..])
  }

  /** A run of writes leaves in each byte of the table the last value written to its address, 0x6100 on, or what
      was there if none was. */
  lemma {:induction false} LastWriteShows(t: seq<Byte>, writes: seq<(int, Byte)>, k: nat, i: nat)
    requires IsTable(t) && k < TABLE_SIZE
    requires i < |writes| && writes[i].0 == 0x6100 + k && forall j :: i < j < |writes| ==> writes[j].0 != 0x6100 + k
    ensures Written(t, writes)[k] == writes[i].1
    decreases |writes|
  {
    var t1 := match WithinRange(writes[0].0) case Some(k) => t[k := writes[0].1] case None => t;
    assert forall j :: 0 < j < |writes| ==> writes[1..][j - 1] == writes[j];
    if i == 0 {
      UnwrittenStays(t1, writes[1..], k);
    } else {
      LastWriteShows(t1, writes[1..], k, i - 1);
    }
  }

  lemma {:induction false} UnwrittenStays(t: seq<Byte>, writes: seq<(int, Byte)>, k: nat)
    requires IsTable(t) && k < TABLE_SIZE && forall j :: 0 <= j < |writes| ==> writes[j].0 != 0x6100 + k
    ensures Written(t, writes)[k] == t[k]
    decreases |writes|
  {
    if writes != [] {
      assert forall j :: 0 < j < |writes| ==> writes[1..][j - 1] == writes[j];
      UnwrittenStays(match WithinRange(writes[0].0) case Some(k) => t[k := writes[0].1] case None => t, writes[1..], k);
    }
  }

  /** Every four bytes are a PAN identifier and a short address, every eight an extended address in two words, each
      with its lowest byte first. */
  lemma ViewsLowestFirst(t: seq<Byte>, i: nat, n: nat)
    requires IsTable(t) && i < 24 && n < 2
    ensures var p, s := PanOf(t, i), ShortOf(t, i);
            && (p & 0xFF) as Byte == t[4 * i] && (p >> 8) as Byte == t[4 * i + 1]
            && (s & 0xFF) as Byte == t[4 * i + 2] && (s >> 8) as Byte == t[4 * i + 3]
    ensures i < 12 ==>
              var x, a := ExtOf(t, i, n), 8 * i + 4 * n;
              && (x & 0xFF) as Byte == t[a] && ((x >> 8) & 0xFF) as Byte == t[a + 1]
              && ((x >> 16) & 0xFF) as Byte == t[a + 2] && (x >> 24) as Byte == t[a + 3]
  {
    HalfBytes(t[4 * i], t[4 * i + 1]);
    HalfBytes(t[4 * i + 2], t[4 * i + 3]);
    if i < 12 {
      var a := 8 * i + 4 * n;
      FullBytes(t[a], t[a + 1], t[a + 2], t[a + 3]);
    }
    hide Half, Full;
  }

  lemma HalfBytes(lo: Byte, hi: Byte)
    ensures (Half(lo, hi) & 0xFF) as Byte == lo && (Half(lo, hi) >> 8) as Byte == hi
  {
  }

  lemma FullBytes(b0: Byte, b1: Byte, b2: Byte, b3: Byte)
    ensures var x := Full(b0, b1, b2, b3);
            && (x & 0xFF) as Byte == b0 && ((x >> 8) & 0xFF) as Byte == b1
            && ((x >> 16) & 0xFF) as Byte == b2 && (x >> 24) as Byte == b3
  {
  }

  predicate Touches(writes: seq<(int, Byte)>, k: nat) {
    exists i :: 0 <= i < |writes| && writes[i].0 == TABLE_START + k
  }

  /** A run of writes on a new object. */
  method Run(writes: seq<(int, Byte)>) returns (table: AddressTable)
    ensures fresh(table) && table.Valid() && table.Caches(Written(seq(TABLE_SIZE, _ => 0xCC), writes))
  {
    table := new AddressTable();
    ghost var start: seq<Byte> := seq(TABLE_SIZE, _ => 0xCC);
    ghost var t := start;
    var i := 0;
    while i < |writes|
      invariant 0 <= i <= |writes| && table.Valid() && IsTable(t) && table.Caches(t)
      invariant fresh(table.PanId) && fresh(table.shortAddr) && fresh(table.ExtAddr)
      invariant Written(t, writes[i..]) == Written(start, writes)
    {
      assert writes[i..][0] == writes[i] && writes[i..][1..] == writes[i + 1..];
      table.Write(writes[i].0, writes[i].1, t);
      t := match WithinRange(writes[i].0) case Some(k) => t[k := writes[i].1] case None => t;
      i := i + 1;
    }
    assert writes[i..] == [];
  }

  lemma {:induction false} WrittenAgree(t: seq<Byte>, u: seq<Byte>, writes: seq<(int, Byte)>, k: nat)
    requires IsTable(t) && IsTable(u) && k < TABLE_SIZE
    ensures Written(t, writes)[k] == Written(u, writes)[k] <==> Touches(writes, k) || t[k] == u[k]
    decreases |writes|
  {
    if writes != [] {
      var t1 := match WithinRange(writes[0].0) case Some(k) => t[k := writes[0].1] case None => t;
      var u1 := match WithinRange(writes[0].0) case Some(k) => u[k := writes[0].1] case None => u;
      WrittenAgree(t1, u1, writes[1..], k);
      assert Touches(writes, k) <==> writes[0].0 == TABLE_START + k || Touches(writes[1..], k) by {
        assert forall i :: 0 < i < |writes| ==> writes[1..][i - 1] == writes[i];
      }
    }
  }

  predicate SameViews(t: seq<Byte>, u: seq<Byte>)
    requires IsTable(t) && IsTable(u)
  {
    && (forall i :: 0 <= i < 24 ==> PanOf(t, i) == PanOf(u, i) && ShortOf(t, i) == ShortOf(u, i))
    && (forall i, n :: 0 <= i < 12 && 0 <= n < 2 ==> ExtOf(t, i, n) == ExtOf(u, i, n))
  }

  lemma HalfInjective(lo: Byte, hi: Byte, lo': Byte, hi': Byte)
    requires Half(lo, hi) == Half(lo', hi')
    ensures lo == lo' && hi == hi'
  {
    assert (Half(lo, hi) & 0xFF) as Byte == lo && (Half(lo, hi) >> 8) as Byte == hi;
    assert (Half(lo', hi') & 0xFF) as Byte == lo' && (Half(lo', hi') >> 8) as Byte == hi';
  }

  lemma ViewsDetermineBytes(t: seq<Byte>, u: seq<Byte>)
    requires IsTable(t) && IsTable(u) && SameViews(t, u)
    ensures t == u
  {
    forall k | 0 <= k < TABLE_SIZE
      ensures t[k] == u[k]
    {
      var i := k / 4;
      assert PanOf(t, i) == PanOf(u, i) && ShortOf(t, i) == ShortOf(u, i);
      HalfInjective(t[4 * i], t[4 * i + 1], u[4 * i], u[4 * i + 1]);
      HalfInjective(t[4 * i + 2], t[4 * i + 3], u[4 * i + 2], u[4 * i + 3]);
    }
  }

  /**
   * The caches start as if every byte were 0xCC. For a memory that starts as `m` they show the bytes in
   * it exactly when every byte that no write touched was 0xCC.
   */
  lemma CachesMatchMemoryIff(m: seq<Byte>, writes: seq<(int, Byte)>)
    requires IsTable(m)
    ensures SameViews(Written(seq(TABLE_SIZE, _ => 0xCC), writes), Written(m, writes))
            <==> forall k :: 0 <= k < TABLE_SIZE && !Touches(writes, k) ==> m[k] == 0xCC
  {
    var start: seq<Byte> := seq(TABLE_SIZE, _ => 0xCC);
    var t, u := Written(start, writes), Written(m, writes);
    forall k | 0 <= k < TABLE_SIZE
      ensures t[k] == u[k] <==> Touches(writes, k) || m[k] == 0xCC
    {
      WrittenAgree(start, m, writes, k);
    }
    if forall k :: 0 <= k < TABLE_SIZE && !Touches(writes, k) ==> m[k] == 0xCC {
      assert t == u;
    }
    if SameViews(t, u) {
      ViewsDetermineBytes(t, u);
    }
  }
}
