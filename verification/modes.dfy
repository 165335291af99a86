/**
 The EDRAM store's closed set of processing modes and the per-mode tables
 (`mode_info_`, `mode_data_`) that the real modes index.

 In the store the mode is an enumeration whose unsupported sentinel has the
 value -1, whose real modes are numbered from 0, and whose last enumerator
 `k_ModeCount` sizes the tables. Here the mode is a tagged value, and only
 the real modes have a table index.
 */
module Modes {
  import opened Wrappers

  /** `k_ModeUnsupported`, `k_32bpp` (32-bit color) and `k_64bpp` (64-bit
      color). */
  datatype Mode = Unsupported | Color32bpp | Color64bpp

  /** `k_ModeCount`: the number of real modes, and the length of every
      per-mode table. */
  const ModeCount: nat := 2

  /** The value of the mode's enumerator. */
  function EnumValue(m: Mode): int {
    match m
    case Unsupported => -1
    case Color32bpp => 0
    case Color64bpp => 1
  }

  /** The mode an enumerator value denotes, if any. */
  function FromEnumValue(v: int): (m: Option<Mode>)
    ensures m.Some? <==> -1 <= v < ModeCount
  {
    if v == -1 then Some(Unsupported)
    else if v == 0 then Some(Color32bpp)
    else if v == 1 then Some(Color64bpp)
    else None
  }

  /** Mode to enumerator value and back is the identity, and a value
      denotes a mode exactly when it is that mode's value. */
  lemma EnumValueRoundTrip(m: Mode, v: int)
    ensures FromEnumValue(EnumValue(m)) == Some(m)
    ensures FromEnumValue(v) == Some(m) <==> EnumValue(m) == v
  {
  }

  /** The index of the mode's entry in a per-mode table: the enumerator value
      of a real mode; the unsupported sentinel has none. */
  function TableIndex(m: Mode): (i: Option<nat>)
    ensures i.Some? ==> i.value < ModeCount
    ensures i.Some? ==> i.value == EnumValue(m)
  {
    if m == Unsupported then None else Some(EnumValue(m) as nat)
  }

  /** The real mode stored at table index i. */
  function ModeAt(i: nat): (m: Mode)
    requires i < ModeCount
    ensures m != Unsupported
  {
    if i == 0 then Color32bpp else Color64bpp
  }

  /** A mode has a table index exactly when its enumerator value lies in
      [0, k_ModeCount); the unsupported sentinel never does. Indices and real
      modes correspond one to one. */
  lemma TableIndexValid(m: Mode, i: nat)
    ensures TableIndex(m).Some? <==> 0 <= EnumValue(m) < ModeCount
    ensures TableIndex(m).Some? <==> m != Unsupported
    ensures i < ModeCount ==> TableIndex(ModeAt(i)) == Some(i)
    ensures m != Unsupported ==> ModeAt(TableIndex(m).value) == m
  {
  }

  /** The real modes are exactly k_ModeCount many. */
  lemma RealModeCount()
    ensures (set i | 0 <= i < ModeCount :: ModeAt(i)) == {Color32bpp, Color64bpp}
    ensures |{Color32bpp, Color64bpp}| == ModeCount
  {
    assert ModeAt(0) == Color32bpp;
    assert ModeAt(1) == Color64bpp;
  }

  /** A per-mode table: one entry for each real mode. */
  predicate IsModeTable<T>(table: seq<T>) {
    |table| == ModeCount
  }

  /** The entry of a real mode; the unsupported sentinel reads nothing. */
  function Lookup<T>(table: seq<T>, m: Mode): (r: Option<T>)
    requires IsModeTable(table)
    ensures r.Some? <==> m != Unsupported
    ensures m == Color32bpp ==> r == Some(table[0])
    ensures m == Color64bpp ==> r == Some(table[1])
  {
    match TableIndex(m)
    case None => None
    case Some(i) => Some(table[i])
  }

  /** The table with the entry of real mode m replaced by v. */
  function Update<T>(table: seq<T>, m: Mode, v: T): (r: seq<T>)
    requires IsModeTable(table) && m != Unsupported
    ensures IsModeTable(r)
    ensures Lookup(r, m) == Some(v)
    ensures forall n :: n != m ==> Lookup(r, n) == Lookup(table, n)
  {
    table[TableIndex(m).value := v]
  }
}
