/** The satellite blacklist converters of gps/gnss/GnssAdapter.cpp: six 64-bit masks against a list of
    satellite ids. A uint64_t is modelled as its 64 bits, lowest first; the code only tests, shifts
    and sets bits of it. */
module SvBlacklist {
  type Mask = m: seq<bool> | |m| == 64 witness Filled(64, false)
  type SvId = x: int | 0 <= x < 0x1_0000_0000

  function Filled(n: nat, b: bool): (s: seq<bool>)
    ensures |s| == n && forall i :: 0 <= i < n ==> s[i] == b
  {
    if n == 0 then [] else [b] + Filled(n - 1, b)
  }

  const NO_BITS: Mask := Filled(64, false)
  const ALL_BITS: Mask := Filled(64, true)
  const SBAS_INITIAL_SV_ID: SvId := 120
  const SBAS_INITIAL_SV_LENGTH := 39
  const SBAS_INITIAL2_SV_ID: SvId := 183

  datatype SvType = Unknown | Gps | Sbas | Glonass | Qzss | Beidou | Galileo | Navic

  datatype SvIdSource = SvIdSource(constellation: SvType, svId: SvId)

  datatype SvIdConfig = SvIdConfig(glo: Mask, bds: Mask, qzss: Mask, gal: Mask, sbas: Mask, navic: Mask)

  const ZERO_CONFIG := SvIdConfig(NO_BITS, NO_BITS, NO_BITS, NO_BITS, NO_BITS, NO_BITS)

  /** mask >> n */
  function ShiftRight(mask: Mask, n: nat): (r: Mask)
    requires n <= 64
    ensures forall i :: 0 <= i < 64 ==> r[i] == (i + n < 64 && mask[i + n])
  {
    mask[n..] + Filled(n, false)
  }

  /** (mask << n) >> n, which clears the n highest bits */
  function ClearHigh(mask: Mask, n: nat): (r: Mask)
    requires n <= 64
    ensures forall i :: 0 <= i < 64 ==> r[i] == (i < 64 - n && mask[i])
  {
    mask[..64 - n] + Filled(n, false)
  }

  /** mask == GNSS_SV_CONFIG_ALL_BITS_ENABLED_MASK */
  predicate IsAll(mask: Mask) {
    forall i :: 0 <= i < 64 ==> mask[i]
  }

  predicate IsZero(mask: Mask) {
    forall i :: 0 <= i < 64 ==> !mask[i]
  }

  // ----- From ids to masks ---------------------------------------------------------------------

  /** The satellite id of bit 0, for the constellations with one id range. */
  function InitialSvId(c: SvType): SvId {
    match c
    case Glonass => 65
    case Beidou => 201
    case Qzss => 193
    case Galileo => 301
    case Navic => 401
    case _ => 0
  }

  predicate Blacklistable(c: SvType) {
    c != Unknown && c != Gps
  }

  /** What one list entry does to the mask of its constellation. */
  datatype Effect = Nothing | AllOf | Bit(n: nat)

  function EffectOf(s: SvIdSource): Effect {
    if !Blacklistable(s.constellation) then Nothing
    else if s.svId == 0 then AllOf
    else if s.constellation == Sbas then
      if s.svId >= SBAS_INITIAL2_SV_ID then
        if s.svId >= SBAS_INITIAL2_SV_ID + 64 then Nothing
        else Bit(s.svId + SBAS_INITIAL_SV_LENGTH - SBAS_INITIAL2_SV_ID)
      else if SBAS_INITIAL_SV_ID <= s.svId < SBAS_INITIAL_SV_ID + SBAS_INITIAL_SV_LENGTH then
        Bit(s.svId - SBAS_INITIAL_SV_ID)
      else Nothing
    else
      var first := InitialSvId(s.constellation);
      if s.svId < first || s.svId >= first + 64 then Nothing else Bit(s.svId - first)
  }

  /** C++ defines `1ULL << n` only for n below 64. */
  predicate Shiftable(s: SvIdSource) {
    EffectOf(s).Bit? ==> EffectOf(s).n < 64
  }

  /** The only entries beyond that are the SBAS ids from 208 to 246. */
  lemma ShiftableIff(s: SvIdSource)
    ensures Shiftable(s) <==> !(s.constellation == Sbas && 208 <= s.svId <= 246)
  {
  }

  ghost predicate AllShiftable(ids: seq<SvIdSource>) {
    forall i :: 0 <= i < |ids| ==> Shiftable(ids[i])
  }

  function Or(a: Mask, b: Mask): (r: Mask)
    ensures forall i :: 0 <= i < 64 ==> r[i] == (a[i] || b[i])
  {
    seq(64, i requires 0 <= i < 64 => a[i] || b[i])
  }

  /** `undefined` is whatever the machine makes of a shift by 64 or more. */
  function Apply(mask: Mask, s: SvIdSource, undefined: nat -> Mask): Mask {
    match EffectOf(s)
    case Nothing => mask
    case AllOf => ALL_BITS
    case Bit(n) => if n < 64 then mask[n := true] else Or(mask, undefined(n))
  }

  /** The mask of `c` in a configuration; no bits for a constellation that has no mask. */
  function MaskOf(g: SvIdConfig, c: SvType): Mask {
    match c
    case Glonass => g.glo
    case Beidou => g.bds
    case Qzss => g.qzss
    case Galileo => g.gal
    case Sbas => g.sbas
    case Navic => g.navic
    case _ => NO_BITS
  }

  /** The satellite id of bit `k` of a constellation's mask; SBAS has the ranges from 120 and from 183. */
  predicate Names(c: SvType, svId: SvId, k: nat) {
    match c
    case Glonass => svId == 65 + k
    case Qzss => svId == 193 + k
    case Beidou => svId == 201 + k
    case Galileo => svId == 301 + k
    case Navic => svId == 401 + k
    case Sbas => if k < 39 then svId == 120 + k else svId == 183 + (k - 39)
    case _ => false
  }

  /** Entry `s` puts satellite bit `k` of constellation `c` on the blacklist: by its id, or by 0 for all. */
  predicate Covers(s: SvIdSource, c: SvType, k: nat) {
    s.constellation == c && c != Unknown && c != Gps && (s.svId == 0 || Names(c, s.svId, k))
  }

  lemma EffectIsCover(s: SvIdSource, k: nat)
    requires k < 64
    ensures Covers(s, s.constellation, k) <==> EffectOf(s) == AllOf || EffectOf(s) == Bit(k)
  {
  }

  ghost predicate Listed(ids: seq<SvIdSource>, c: SvType, k: nat) {
    exists s :: s in ids && Covers(s, c, k)
  }

  /** In the mask of `c`, `after` has the bits of `before` and those that `ids` list, and no others. */
  ghost predicate AddsTo(ids: seq<SvIdSource>, before: SvIdConfig, after: SvIdConfig, c: SvType) {
    forall k :: 0 <= k < 64 ==> (MaskOf(after, c)[k] <==> MaskOf(before, c)[k] || Listed(ids, c, k))
  }

  ghost predicate AddsExactly(ids: seq<SvIdSource>, before: SvIdConfig, after: SvIdConfig) {
    forall c :: AddsTo(ids, before, after, c)
  }

  function Applied(g: SvIdConfig, s: SvIdSource, undefined: nat -> Mask): SvIdConfig {
    match s.constellation
    case Glonass => g.(glo := Apply(g.glo, s, undefined))
    case Beidou => g.(bds := Apply(g.bds, s, undefined))
    case Qzss => g.(qzss := Apply(g.qzss, s, undefined))
    case Galileo => g.(gal := Apply(g.gal, s, undefined))
    case Sbas => g.(sbas := Apply(g.sbas, s, undefined))
    case Navic => g.(navic := Apply(g.navic, s, undefined))
    case Unknown => g
    case Gps => g
  }

  lemma ListedSnoc(ids: seq<SvIdSource>, s: SvIdSource, c: SvType, k: nat)
    ensures Listed(ids + [s], c, k) <==> Listed(ids, c, k) || Covers(s, c, k)
  {
    if Covers(s, c, k) {
      assert s in ids + [s];
    }
    if t :| t in ids && Covers(t, c, k) {
      assert t in ids + [s];
    }
  }

  lemma AppliedAdds(ids: seq<SvIdSource>, s: SvIdSource, before: SvIdConfig, g: SvIdConfig, c: SvType,
                    undefined: nat -> Mask)
    requires AddsTo(ids, before, g, c) && (s.constellation == c ==> Shiftable(s))
    ensures AddsTo(ids + [s], before, Applied(g, s, undefined), c)
  {
    forall k | 0 <= k < 64
      ensures MaskOf(Applied(g, s, undefined), c)[k] <==> MaskOf(before, c)[k] || Listed(ids + [s], c, k)
    {
      ListedSnoc(ids, s, c, k);
      EffectIsCover(s, k);
    }
  }

  /** What the conversion promises for a constellation: all but SBAS, and SBAS if its shifts are defined. */
  ghost predicate AddsWhereDefined(ids: seq<SvIdSource>, before: SvIdConfig, after: SvIdConfig) {
    forall c :: c != Sbas || AllShiftable(ids) ==> AddsTo(ids, before, after, c)
  }

  lemma OneMoreAdds(ids: seq<SvIdSource>, s: SvIdSource, before: SvIdConfig, g: SvIdConfig, undefined: nat -> Mask)
    requires AddsWhereDefined(ids, before, g)
    ensures AddsWhereDefined(ids + [s], before, Applied(g, s, undefined))
  {
    forall c | c != Sbas || AllShiftable(ids + [s])
      ensures AddsTo(ids + [s], before, Applied(g, s, undefined), c)
    {
      ShiftableIff(s);
      if c == Sbas {
        assert forall i :: 0 <= i < |ids| ==> ids[i] == (ids + [s])[i];
        assert (ids + [s])[|ids|] == s;
      }
      AppliedAdds(ids, s, before, g, c, undefined);
    }
  }

  /** The answer of the conversion: some satellite is on the blacklist. */
  predicate AnyBit(g: SvIdConfig) {
    !(IsZero(g.glo) && IsZero(g.bds) && IsZero(g.gal) && IsZero(g.qzss) && IsZero(g.sbas) && IsZero(g.navic))
  }

  lemma AnyBitIff(g: SvIdConfig)
    ensures AnyBit(g) <==> exists c, k :: 0 <= k < 64 && MaskOf(g, c)[k]
  {
    if AnyBit(g) {
      var c := if !IsZero(g.glo) then Glonass
               else if !IsZero(g.bds) then Beidou
               else if !IsZero(g.gal) then Galileo
               else if !IsZero(g.qzss) then Qzss
               else if !IsZero(g.sbas) then Sbas
               else Navic;
      var k :| 0 <= k < 64 && MaskOf(g, c)[k];
      assert MaskOf(g, c)[k];
    }
  }

  /** convertToGnssSvIdConfig: an empty list clears the masks; any other list adds to them. Only SBAS ids from
      208 to 246, and only for the SBAS mask, make the result depend on an undefined shift. */
  method ConvertToGnssSvIdConfig(ids: seq<SvIdSource>, config: SvIdConfig, undefined: nat -> Mask)
    returns (g: SvIdConfig, ok: bool)
    ensures ids == [] ==> g == ZERO_CONFIG && ok
    ensures ids != [] ==> AddsWhereDefined(ids, config, g) && ok == AnyBit(g)
    ensures ids != [] && AllShiftable(ids) ==> AddsExactly(ids, config, g)
  {
    if |ids| == 0 {
      return ZERO_CONFIG, true;
    }
    g := config;
    for i := 0 to |ids|
      invariant AddsWhereDefined(ids[..i], config, g)
    {
      OneMoreAdds(ids[..i], ids[i], config, g, undefined);
      assert ids[..i + 1] == ids[..i] + [ids[i]];
      var s := ids[i];
      match s.constellation {
        case Glonass => g := g.(glo := Apply(g.glo, s, undefined));
        case Beidou => g := g.(bds := Apply(g.bds, s, undefined));
        case Qzss => g := g.(qzss := Apply(g.qzss, s, undefined));
        case Galileo => g := g.(gal := Apply(g.gal, s, undefined));
        case Sbas => g := g.(sbas := Apply(g.sbas, s, undefined));
        case Navic => g := g.(navic := Apply(g.navic, s, undefined));
        case Unknown =>
        case Gps =>
      }
    }
    assert ids[..|ids|] == ids;
    ok := AnyBit(g);
  }

  // ----- From masks to ids ---------------------------------------------------------------------

  function FirstBit(first: SvId, c: SvType): nat {
    if c == Sbas && first == SBAS_INITIAL2_SV_ID then SBAS_INITIAL_SV_LENGTH else 0
  }

  /** How the masks are passed: a whole mask, or one of the two parts of the SBAS mask. */
  predicate Fits(mask: Mask, first: SvId, c: SvType) {
    && Blacklistable(c)
    && if c != Sbas then first == InitialSvId(c)
       else if first == SBAS_INITIAL_SV_ID then forall i :: SBAS_INITIAL_SV_LENGTH <= i < 64 ==> !mask[i]
       else first == SBAS_INITIAL2_SV_ID && forall i :: 64 - SBAS_INITIAL_SV_LENGTH <= i < 64 ==> !mask[i]
  }

  function IdOfBit(bit: nat, first: SvId, c: SvType): SvId
    requires bit < 64
  {
    if c == Sbas && bit >= SBAS_INITIAL_SV_LENGTH then bit - SBAS_INITIAL_SV_LENGTH + SBAS_INITIAL2_SV_ID
    else (bit + first) % 0x1_0000_0000
  }

  /** The id written for a bit is the id that sets this bit again. */
  lemma IdSetsBit(mask: Mask, bit: nat, first: SvId, c: SvType)
    requires Fits(mask, first, c) && bit < 64 && mask[bit]
    ensures EffectOf(SvIdSource(c, IdOfBit(bit, first, c))) == Bit(bit + FirstBit(first, c))
    ensures bit + FirstBit(first, c) < 64
  {
  }

  /** The entries `more` stand for the bits of `mask` below `bits`. */
  ghost predicate ListsLowBits(more: seq<SvIdSource>, mask: Mask, bits: nat, c: SvType, at: nat) {
    && AllShiftable(more)
    && (forall s :: s in more ==> s.constellation == c)
    && (forall k :: 0 <= k < 64 ==> (Listed(more, c, k) <==> at <= k < at + bits && mask[k - at]))
    && (more == [] <==> forall i :: 0 <= i < 64 && i < bits ==> !mask[i])
  }

  lemma ListsOneMore(more: seq<SvIdSource>, mask: Mask, bit: nat, first: SvId, c: SvType)
    requires Fits(mask, first, c) && bit < 64 && ListsLowBits(more, mask, bit, c, FirstBit(first, c))
    ensures
      var next := more + if mask[bit] then [SvIdSource(c, IdOfBit(bit, first, c))] else [];
      ListsLowBits(next, mask, bit + 1, c, FirstBit(first, c))
  {
    var at := FirstBit(first, c);
    assert more + [] == more;
    if mask[bit] {
      var s := SvIdSource(c, IdOfBit(bit, first, c));
      IdSetsBit(mask, bit, first, c);
      forall k | 0 <= k < 64
        ensures Listed(more + [s], c, k) <==> at <= k < at + bit + 1 && mask[k - at]
      {
        ListedSnoc(more, s, c, k);
        EffectIsCover(s, k);
      }
    }
  }

  lemma AllIsListed(mask: Mask, c: SvType, first: SvId)
    requires IsAll(mask) && Fits(mask, first, c)
    ensures ListsLowBits([SvIdSource(c, 0)], mask, 64, c, FirstBit(first, c))
  {
    var s := SvIdSource(c, 0);
    assert mask[63];
    forall k | 0 <= k < 64
      ensures Listed([s], c, k)
    {
      assert s in [s] && Covers(s, c, k);
    }
  }

  /** The entries for the lowest `n` bits of `mask`, lowest first. */
  function IdsUpTo(mask: Mask, first: SvId, c: SvType, n: nat): seq<SvIdSource>
    requires n <= 64
  {
    if n == 0 then []
    else IdsUpTo(mask, first, c, n - 1) + if mask[n - 1] then [SvIdSource(c, IdOfBit(n - 1, first, c))] else []
  }

  function IdsOfMask(mask: Mask, first: SvId, c: SvType): seq<SvIdSource>
  {
    if IsAll(mask) then [SvIdSource(c, 0)] else IdsUpTo(mask, first, c, 64)
  }

  lemma {:induction false} IdsListBits(mask: Mask, first: SvId, c: SvType, n: nat)
    requires Fits(mask, first, c) && n <= 64
    ensures ListsLowBits(IdsUpTo(mask, first, c, n), mask, n, c, FirstBit(first, c))
  {
    if n > 0 {
      IdsListBits(mask, first, c, n - 1);
      ListsOneMore(IdsUpTo(mask, first, c, n - 1), mask, n - 1, first, c);
    }
  }

  lemma MaskIsListed(mask: Mask, first: SvId, c: SvType)
    requires Fits(mask, first, c)
    ensures ListsLowBits(IdsOfMask(mask, first, c), mask, 64, c, FirstBit(first, c))
  {
    if IsAll(mask) {
      AllIsListed(mask, c, first);
    } else {
      IdsListBits(mask, first, c, 64);
    }
  }

  /** Clear bits add nothing. */
  lemma {:induction false} ClearBitsAddNothing(mask: Mask, first: SvId, c: SvType, n: nat, m: nat)
    requires n <= m <= 64 && forall i :: n <= i < m ==> !mask[i]
    ensures IdsUpTo(mask, first, c, m) == IdsUpTo(mask, first, c, n)
  {
    if n < m {
      ClearBitsAddNothing(mask, first, c, n, m - 1);
    }
  }

  lemma ShiftTwice(mask: Mask, n: nat)
    requires n < 64
    ensures ShiftRight(ShiftRight(mask, n), 1) == ShiftRight(mask, n + 1)
  {
  }

  lemma RestIsClear(mask: Mask, n: nat)
    requires n <= 64 && IsZero(ShiftRight(mask, n))
    ensures forall i :: n <= i < 64 ==> !mask[i]
  {
    forall i | n <= i < 64
      ensures !mask[i]
    {
      assert !ShiftRight(mask, n)[i - n];
    }
  }

  /** convertGnssSvIdMaskToList appends to `svIds`. */
  method ConvertGnssSvIdMaskToList(mask: Mask, svIds: seq<SvIdSource>, initialSvId: SvId, svType: SvType)
    returns (r: seq<SvIdSource>)
    ensures r == svIds + IdsOfMask(mask, initialSvId, svType)
  {
    r := svIds;
    if IsAll(mask) {
      return r + [SvIdSource(svType, 0)];
    }
    var svIdMask, bitNumber := mask, 0;
    while !IsZero(svIdMask)
      invariant bitNumber <= 64 && svIdMask == ShiftRight(mask, bitNumber)
      invariant r == svIds + IdsUpTo(mask, initialSvId, svType, bitNumber)
      decreases 64 - bitNumber
    {
      if svIdMask[0] {
        r := r + [SvIdSource(svType, IdOfBit(bitNumber, initialSvId, svType))];
      }
      ShiftTwice(mask, bitNumber);
      bitNumber := bitNumber + 1;
      svIdMask := ShiftRight(svIdMask, 1);
    }
    RestIsClear(mask, bitNumber);
    ClearBitsAddNothing(mask, initialSvId, svType, bitNumber, 64);
  }

  // ----- There and back ------------------------------------------------------------------------

  function IdsOfSbas(mask: Mask): seq<SvIdSource> {
    IdsOfMask(ClearHigh(mask, 64 - SBAS_INITIAL_SV_LENGTH), SBAS_INITIAL_SV_ID, Sbas) +
    IdsOfMask(ShiftRight(mask, SBAS_INITIAL_SV_LENGTH), SBAS_INITIAL2_SV_ID, Sbas)
  }

  function IdsOf(g: SvIdConfig, c: SvType): seq<SvIdSource> {
    if c == Sbas then IdsOfSbas(g.sbas) else IdsOfMask(MaskOf(g, c), InitialSvId(c), c)
  }

  /** The order in which the masks are written out. */
  const ORDER := [Beidou, Galileo, Glonass, Qzss, Sbas, Navic]

  function IdsOfSome(g: SvIdConfig, cs: seq<SvType>): seq<SvIdSource> {
    if cs == [] then [] else IdsOfSome(g, cs[..|cs| - 1]) + IdsOf(g, cs[|cs| - 1])
  }

  lemma ListedConcat(a: seq<SvIdSource>, b: seq<SvIdSource>, c: SvType, k: nat)
    ensures Listed(a + b, c, k) <==> Listed(a, c, k) || Listed(b, c, k)
  {
    if s :| s in a && Covers(s, c, k) {
      assert s in a + b;
    }
    if s :| s in b && Covers(s, c, k) {
      assert s in a + b;
    }
  }

  /** `ids` list the bits of the masks of the constellations `cs`, and nothing else. */
  ghost predicate ListsSome(ids: seq<SvIdSource>, g: SvIdConfig, cs: seq<SvType>) {
    && AllShiftable(ids)
    && (forall c, k :: 0 <= k < 64 ==> (Listed(ids, c, k) <==> c in cs && MaskOf(g, c)[k]))
    && (ids == [] <==> forall c :: c in cs ==> IsZero(MaskOf(g, c)))
  }

  /** `more` lists exactly the mask of `c`. */
  ghost predicate ListsMask(more: seq<SvIdSource>, g: SvIdConfig, c: SvType) {
    && AllShiftable(more)
    && (forall s :: s in more ==> s.constellation == c)
    && (forall k :: 0 <= k < 64 ==> (Listed(more, c, k) <==> MaskOf(g, c)[k]))
    && (more == [] <==> IsZero(MaskOf(g, c)))
  }

  lemma SbasBitIsListed(mask: Mask, low: seq<SvIdSource>, high: seq<SvIdSource>, k: nat)
    requires k < 64
    requires ListsLowBits(low, ClearHigh(mask, 64 - SBAS_INITIAL_SV_LENGTH), 64, Sbas, 0)
    requires ListsLowBits(high, ShiftRight(mask, SBAS_INITIAL_SV_LENGTH), 64, Sbas, SBAS_INITIAL_SV_LENGTH)
    ensures Listed(low + high, Sbas, k) <==> mask[k]
  {
    ListedConcat(low, high, Sbas, k);
    SbasBit(mask, k);
  }

  lemma SbasParts(g: SvIdConfig, low: seq<SvIdSource>, high: seq<SvIdSource>)
    requires ListsLowBits(low, ClearHigh(g.sbas, 64 - SBAS_INITIAL_SV_LENGTH), 64, Sbas, 0)
    requires ListsLowBits(high, ShiftRight(g.sbas, SBAS_INITIAL_SV_LENGTH), 64, Sbas, SBAS_INITIAL_SV_LENGTH)
    ensures ListsMask(low + high, g, Sbas)
  {
    HalvesOfZero(g.sbas);
    forall k | 0 <= k < 64
      ensures Listed(low + high, Sbas, k) <==> g.sbas[k]
    {
      SbasBitIsListed(g.sbas, low, high, k);
    }
  }

  lemma SbasBit(mask: Mask, k: nat)
    requires k < 64
    ensures
      var n := SBAS_INITIAL_SV_LENGTH;
      mask[k] <==> ClearHigh(mask, 64 - n)[k] || (k >= n && ShiftRight(mask, n)[k - n])
  {
  }

  lemma HalvesOfZero(mask: Mask)
    ensures
      var n := SBAS_INITIAL_SV_LENGTH;
      IsZero(mask) <==> IsZero(ClearHigh(mask, 64 - n)) && IsZero(ShiftRight(mask, n))
  {
    var n := SBAS_INITIAL_SV_LENGTH;
    var low, high := ClearHigh(mask, 64 - n), ShiftRight(mask, n);
    if IsZero(low) && IsZero(high) {
      forall i | 0 <= i < 64
        ensures !mask[i]
      {
        assert if i < n then !low[i] else !high[i - n];
      }
    }
  }

  lemma SbasIsListed(g: SvIdConfig)
    ensures ListsMask(IdsOf(g, Sbas), g, Sbas)
  {
    var low, high := ClearHigh(g.sbas, 64 - SBAS_INITIAL_SV_LENGTH), ShiftRight(g.sbas, SBAS_INITIAL_SV_LENGTH);
    MaskIsListed(low, SBAS_INITIAL_SV_ID, Sbas);
    MaskIsListed(high, SBAS_INITIAL2_SV_ID, Sbas);
    SbasParts(g, IdsOfMask(low, SBAS_INITIAL_SV_ID, Sbas), IdsOfMask(high, SBAS_INITIAL2_SV_ID, Sbas));
  }

  lemma LowBitsAreMask(more: seq<SvIdSource>, g: SvIdConfig, c: SvType)
    requires ListsLowBits(more, MaskOf(g, c), 64, c, 0)
    ensures ListsMask(more, g, c)
  {
  }

  lemma ConstellationIsListed(g: SvIdConfig, c: SvType)
    requires Blacklistable(c)
    ensures ListsMask(IdsOf(g, c), g, c)
  {
    if c == Sbas {
      SbasIsListed(g);
    } else {
      MaskIsListed(MaskOf(g, c), InitialSvId(c), c);
      LowBitsAreMask(IdsOf(g, c), g, c);
    }
  }

  lemma ListsAnother(ids: seq<SvIdSource>, more: seq<SvIdSource>, g: SvIdConfig, cs: seq<SvType>, c: SvType)
    requires ListsSome(ids, g, cs) && ListsMask(more, g, c) && c !in cs
    ensures ListsSome(ids + more, g, cs + [c])
  {
    forall d, k | 0 <= k < 64
      ensures Listed(ids + more, d, k) <==> d in cs + [c] && MaskOf(g, d)[k]
    {
      ListedConcat(ids, more, d, k);
    }
    assert c in cs + [c];
  }

  lemma OneMoreListed(g: SvIdConfig, cs: seq<SvType>, c: SvType, next: seq<SvType>)
    requires ListsSome(IdsOfSome(g, cs), g, cs) && Blacklistable(c) && c !in cs && next == cs + [c]
    ensures ListsSome(IdsOfSome(g, next), g, next)
  {
    ConstellationIsListed(g, c);
    ListsAnother(IdsOfSome(g, cs), IdsOf(g, c), g, cs, c);
    assert next[..|cs|] == cs;
  }

  lemma OrderIsFresh(n: nat)
    requires n < |ORDER|
    ensures Blacklistable(ORDER[n]) && ORDER[n] !in ORDER[..n] && ORDER[..n + 1] == ORDER[..n] + [ORDER[n]]
  {
  }

  lemma {:induction false} PrefixIsListed(g: SvIdConfig, n: nat)
    requires n <= |ORDER|
    ensures ListsSome(IdsOfSome(g, ORDER[..n]), g, ORDER[..n])
  {
    if n > 0 {
      PrefixIsListed(g, n - 1);
      OrderIsFresh(n - 1);
      OneMoreListed(g, ORDER[..n - 1], ORDER[n - 1], ORDER[..n]);
    }
  }

  lemma AllAreListed(g: SvIdConfig)
    ensures ListsSome(IdsOfSome(g, ORDER), g, ORDER)
  {
    PrefixIsListed(g, |ORDER|);
    assert ORDER[..|ORDER|] == ORDER;
  }

  // ----- The ids that are written --------------------------------------------------------------

  lemma {:induction false} InIdsUpTo(mask: Mask, first: SvId, c: SvType, n: nat, s: SvIdSource)
    requires n <= 64
    ensures
      s in IdsUpTo(mask, first, c, n) <==>
      s.constellation == c && exists k :: 0 <= k < n && mask[k] && s.svId == IdOfBit(k, first, c)
  {
    if n > 0 {
      InIdsUpTo(mask, first, c, n - 1, s);
    }
  }

  /** The entry stands for a constellation that is wholly listed, or for one bit of it. */
  ghost predicate Stands(s: SvIdSource, g: SvIdConfig) {
    var c := s.constellation;
    if c != Sbas && IsAll(MaskOf(g, c)) then s.svId == 0
    else exists k :: 0 <= k < 64 && MaskOf(g, c)[k] && Names(c, s.svId, k)
  }

  lemma SbasLowStands(mask: Mask, s: SvIdSource)
    ensures
      s in IdsOfMask(ClearHigh(mask, 64 - SBAS_INITIAL_SV_LENGTH), SBAS_INITIAL_SV_ID, Sbas) <==>
      s.constellation == Sbas && exists k :: 0 <= k < 39 && mask[k] && Names(Sbas, s.svId, k)
  {
    var low := ClearHigh(mask, 64 - SBAS_INITIAL_SV_LENGTH);
    assert !low[63];
    InIdsUpTo(low, SBAS_INITIAL_SV_ID, Sbas, 64, s);
    assert forall k :: 0 <= k < 39 ==> (s.svId == IdOfBit(k, SBAS_INITIAL_SV_ID, Sbas) <==> Names(Sbas, s.svId, k));
    if s.constellation == Sbas {
      if k :| 0 <= k < 39 && mask[k] && Names(Sbas, s.svId, k) {
        assert low[k];
      }
    }
  }

  lemma SbasHighStands(mask: Mask, s: SvIdSource)
    ensures
      s in IdsOfMask(ShiftRight(mask, SBAS_INITIAL_SV_LENGTH), SBAS_INITIAL2_SV_ID, Sbas) <==>
      s.constellation == Sbas && exists k :: 39 <= k < 64 && mask[k] && Names(Sbas, s.svId, k)
  {
    var high := ShiftRight(mask, SBAS_INITIAL_SV_LENGTH);
    assert !high[63];
    InIdsUpTo(high, SBAS_INITIAL2_SV_ID, Sbas, 64, s);
    SbasHighIds(s.svId);
    if j :| 0 <= j < 64 && high[j] && s.svId == IdOfBit(j, SBAS_INITIAL2_SV_ID, Sbas) {
      assert mask[j + 39] && Names(Sbas, s.svId, j + 39);
    }
    if s.constellation == Sbas {
      if k :| 39 <= k < 64 && mask[k] && Names(Sbas, s.svId, k) {
        assert high[k - 39];
      }
    }
  }

  lemma SbasHighIds(svId: SvId)
    ensures forall j :: 0 <= j < 25 ==> (svId == IdOfBit(j, SBAS_INITIAL2_SV_ID, Sbas) <==> Names(Sbas, svId, j + 39))
  {
  }

  lemma SbasStands(g: SvIdConfig, s: SvIdSource)
    ensures s in IdsOf(g, Sbas) <==> s.constellation == Sbas && Stands(s, g)
  {
    SbasLowStands(g.sbas, s);
    SbasHighStands(g.sbas, s);
  }

  lemma OneRangeStands(g: SvIdConfig, c: SvType, s: SvIdSource)
    requires Blacklistable(c) && c != Sbas
    ensures s in IdsOf(g, c) <==> s.constellation == c && Stands(s, g)
  {
    var mask, first := MaskOf(g, c), InitialSvId(c);
    if !IsAll(mask) {
      InIdsUpTo(mask, first, c, 64, s);
      assert forall k :: 0 <= k < 64 ==> (s.svId == IdOfBit(k, first, c) <==> Names(c, s.svId, k));
    }
  }

  lemma {:induction false} InSome(g: SvIdConfig, cs: seq<SvType>, s: SvIdSource)
    ensures s in IdsOfSome(g, cs) <==> exists c :: c in cs && s in IdsOf(g, c)
  {
    if cs != [] {
      var front, last := cs[..|cs| - 1], cs[|cs| - 1];
      assert cs == front + [last];
      InSome(g, front, s);
    }
  }

  /** The list has an entry with id 0 for each constellation that is wholly listed, and else one entry for each bit,
      with the id of its satellite. */
  lemma WrittenIds(g: SvIdConfig, s: SvIdSource)
    ensures s in IdsOfSome(g, ORDER) <==> Blacklistable(s.constellation) && Stands(s, g)
  {
    InSome(g, ORDER, s);
    forall c | c in ORDER
      ensures s in IdsOf(g, c) <==> s.constellation == c && Stands(s, g)
    {
      InOrder(c);
      if c == Sbas {
        SbasStands(g, s);
      } else {
        OneRangeStands(g, c, s);
      }
    }
    InOrder(s.constellation);
  }

  /** The place of a constellation in the list. */
  function Rank(c: SvType): nat {
    match c
    case Beidou => 0
    case Galileo => 1
    case Glonass => 2
    case Qzss => 3
    case Sbas => 4
    case Navic => 5
    case _ => 6
  }

  predicate Precedes(s: SvIdSource, t: SvIdSource) {
    Rank(s.constellation) < Rank(t.constellation) || (s.constellation == t.constellation && s.svId < t.svId)
  }

  ghost predicate InOrderOfIds(ids: seq<SvIdSource>) {
    forall i, j :: 0 <= i < j < |ids| ==> Precedes(ids[i], ids[j])
  }

  lemma OrderedConcat(a: seq<SvIdSource>, b: seq<SvIdSource>)
    requires InOrderOfIds(a) && InOrderOfIds(b) && forall s, t :: s in a && t in b ==> Precedes(s, t)
    ensures InOrderOfIds(a + b)
  {
  }

  lemma {:induction false} IdsAscend(mask: Mask, first: SvId, c: SvType, n: nat)
    requires Fits(mask, first, c) && n <= 64
    ensures InOrderOfIds(IdsUpTo(mask, first, c, n))
    ensures forall s :: s in IdsUpTo(mask, first, c, n) ==>
      s.constellation == c && first <= s.svId < first + n
  {
    if n > 0 {
      IdsAscend(mask, first, c, n - 1);
      if mask[n - 1] {
        LowIds(mask, first, c, n - 1);
      }
    }
  }

  lemma LowIds(mask: Mask, first: SvId, c: SvType, bit: nat)
    requires Fits(mask, first, c) && bit < 64 && mask[bit]
    ensures IdOfBit(bit, first, c) == first + bit
  {
  }

  lemma MaskInOrder(mask: Mask, first: SvId, c: SvType)
    requires Fits(mask, first, c)
    ensures InOrderOfIds(IdsOfMask(mask, first, c))
    ensures forall s :: s in IdsOfMask(mask, first, c) ==>
      s.constellation == c && (!IsAll(mask) ==> first <= s.svId < first + 64)
  {
    IdsAscend(mask, first, c, 64);
  }

  lemma IdsInOrder(g: SvIdConfig, c: SvType)
    requires Blacklistable(c)
    ensures InOrderOfIds(IdsOf(g, c)) && forall s :: s in IdsOf(g, c) ==> s.constellation == c
  {
    if c == Sbas {
      SbasInOrder(g.sbas);
    } else {
      MaskInOrder(MaskOf(g, c), InitialSvId(c), c);
    }
  }

  lemma SbasInOrder(mask: Mask)
    ensures InOrderOfIds(IdsOfSbas(mask)) && forall s :: s in IdsOfSbas(mask) ==> s.constellation == Sbas
  {
    var low, high := ClearHigh(mask, 64 - SBAS_INITIAL_SV_LENGTH), ShiftRight(mask, SBAS_INITIAL_SV_LENGTH);
    assert !low[63] && !high[63];
    MaskInOrder(low, SBAS_INITIAL_SV_ID, Sbas);
    MaskInOrder(high, SBAS_INITIAL2_SV_ID, Sbas);
    forall s, t | s in IdsOfMask(low, SBAS_INITIAL_SV_ID, Sbas) && t in IdsOfMask(high, SBAS_INITIAL2_SV_ID, Sbas)
      ensures Precedes(s, t)
    {
      SbasLowStands(mask, s);
    }
    OrderedConcat(IdsOfMask(low, SBAS_INITIAL_SV_ID, Sbas), IdsOfMask(high, SBAS_INITIAL2_SV_ID, Sbas));
  }

  lemma {:induction false} PrefixInOrder(g: SvIdConfig, n: nat)
    requires n <= |ORDER|
    ensures InOrderOfIds(IdsOfSome(g, ORDER[..n]))
    ensures forall s :: s in IdsOfSome(g, ORDER[..n]) ==> Rank(s.constellation) < n
  {
    if n > 0 {
      var front, c := ORDER[..n - 1], ORDER[n - 1];
      PrefixInOrder(g, n - 1);
      OrderIsFresh(n - 1);
      IdsInOrder(g, c);
      assert Rank(c) == n - 1;
      assert ORDER[..n][..n - 1] == front;
      OrderedConcat(IdsOfSome(g, front), IdsOf(g, c));
    }
  }

  /** The list names BeiDou, Galileo, GLONASS, QZSS, SBAS and NavIC in this order, each with ascending ids, and so
      none twice. */
  lemma WrittenInOrder(g: SvIdConfig)
    ensures InOrderOfIds(IdsOfSome(g, ORDER))
  {
    PrefixInOrder(g, |ORDER|);
    assert ORDER[..|ORDER|] == ORDER;
  }

  lemma SameMasks(g: SvIdConfig, h: SvIdConfig)
    requires forall c, k :: 0 <= k < 64 ==> (MaskOf(g, c)[k] <==> MaskOf(h, c)[k])
    ensures g == h
  {
    forall c
      ensures MaskOf(g, c) == MaskOf(h, c)
    {
    }
    assert MaskOf(g, Glonass) == g.glo && MaskOf(g, Beidou) == g.bds && MaskOf(g, Qzss) == g.qzss;
    assert MaskOf(g, Galileo) == g.gal && MaskOf(g, Sbas) == g.sbas && MaskOf(g, Navic) == g.navic;
  }

  lemma InOrder(c: SvType)
    ensures Blacklistable(c) <==> c in ORDER
  {
  }

  lemma BitIsBack(ids: seq<SvIdSource>, g: SvIdConfig, h: SvIdConfig, c: SvType, k: nat)
    requires k < 64 && ListsSome(ids, g, ORDER)
    requires if ids == [] then h == ZERO_CONFIG else AddsExactly(ids, ZERO_CONFIG, h)
    ensures MaskOf(g, c)[k] <==> MaskOf(h, c)[k]
  {
    ZeroHasNone(c, k);
    assert MaskOf(g, c)[k] <==> Listed(ids, c, k) by {
      InOrder(c);
    }
    if ids != [] {
      assert AddsTo(ids, ZERO_CONFIG, h, c);
    }
  }

  lemma ZeroHasNone(c: SvType, k: nat)
    requires k < 64
    ensures !MaskOf(ZERO_CONFIG, c)[k]
  {
  }

  /** Whatever list stands for `g`, converting it into a zeroed configuration gives `g` back. */
  lemma BackAgain(ids: seq<SvIdSource>, g: SvIdConfig, h: SvIdConfig)
    requires ListsSome(ids, g, ORDER)
    requires if ids == [] then h == ZERO_CONFIG else AddsExactly(ids, ZERO_CONFIG, h)
    ensures h == g && (ids == [] || AnyBit(h))
  {
    forall c, k | 0 <= k < 64
      ensures MaskOf(g, c)[k] <==> MaskOf(h, c)[k]
    {
      BitIsBack(ids, g, h, c, k);
    }
    SameMasks(g, h);
    if !AnyBit(g) {
      forall c
        ensures IsZero(MaskOf(g, c))
      {
      }
    }
  }

  lemma NoIdsOfZero(mask: Mask, first: SvId, c: SvType)
    requires IsZero(mask)
    ensures IdsOfMask(mask, first, c) == []
  {
    assert !mask[0];
    ClearBitsAddNothing(mask, first, c, 0, 64);
  }

  /** The branch of convertFromGnssSvIdConfig for a constellation with one id range. */
  method AppendMask(mask: Mask, svIds: seq<SvIdSource>, first: SvId, c: SvType) returns (r: seq<SvIdSource>)
    ensures r == svIds + IdsOfMask(mask, first, c)
  {
    r := svIds;
    if !IsZero(mask) {
      r := ConvertGnssSvIdMaskToList(mask, svIds, first, c);
    } else {
      NoIdsOfZero(mask, first, c);
    }
  }

  /** The branch for SBAS, with its two id ranges. */
  method AppendSbas(mask: Mask, svIds: seq<SvIdSource>) returns (r: seq<SvIdSource>)
    ensures r == svIds + IdsOfSbas(mask)
  {
    r := svIds;
    var low, high := ClearHigh(mask, 64 - SBAS_INITIAL_SV_LENGTH), ShiftRight(mask, SBAS_INITIAL_SV_LENGTH);
    if !IsZero(mask) {
      r := ConvertGnssSvIdMaskToList(low, r, SBAS_INITIAL_SV_ID, Sbas);
      r := ConvertGnssSvIdMaskToList(high, r, SBAS_INITIAL2_SV_ID, Sbas);
    } else {
      NoIdsOfZero(low, SBAS_INITIAL_SV_ID, Sbas);
      NoIdsOfZero(high, SBAS_INITIAL2_SV_ID, Sbas);
    }
  }

  lemma Appended(svIds: seq<SvIdSource>, g: SvIdConfig, cs: seq<SvType>, c: SvType, next: seq<SvType>)
    requires next == cs + [c]
    ensures (svIds + IdsOfSome(g, cs)) + IdsOf(g, c) == svIds + IdsOfSome(g, next)
  {
    assert next[..|cs|] == cs;
  }

  /** convertFromGnssSvIdConfig appends to `svIds`. */
  method ConvertFromGnssSvIdConfig(g: SvIdConfig, svIds: seq<SvIdSource>) returns (r: seq<SvIdSource>)
    ensures r == svIds + IdsOfSome(g, ORDER)
  {
    assert svIds + IdsOfSome(g, []) == svIds;
    r := AppendMask(g.bds, svIds, InitialSvId(Beidou), Beidou);
    Appended(svIds, g, [], Beidou, [Beidou]);
    r := AppendMask(g.gal, r, InitialSvId(Galileo), Galileo);
    Appended(svIds, g, [Beidou], Galileo, [Beidou, Galileo]);
    r := AppendMask(g.glo, r, InitialSvId(Glonass), Glonass);
    Appended(svIds, g, [Beidou, Galileo], Glonass, [Beidou, Galileo, Glonass]);
    r := AppendMask(g.qzss, r, InitialSvId(Qzss), Qzss);
    Appended(svIds, g, [Beidou, Galileo, Glonass], Qzss, [Beidou, Galileo, Glonass, Qzss]);
    r := AppendSbas(g.sbas, r);
    Appended(svIds, g, [Beidou, Galileo, Glonass, Qzss], Sbas, [Beidou, Galileo, Glonass, Qzss, Sbas]);
    r := AppendMask(g.navic, r, InitialSvId(Navic), Navic);
    Appended(svIds, g, [Beidou, Galileo, Glonass, Qzss, Sbas], Navic, ORDER);
  }

  /** Any six masks survive the way to a list of ids and back, and the conversion reports success. */
  method ThereAndBack(g: SvIdConfig, undefined: nat -> Mask) returns (h: SvIdConfig, ok: bool)
    ensures h == g && ok
  {
    var ids := ConvertFromGnssSvIdConfig(g, []);
    AllAreListed(g);
    assert [] + IdsOfSome(g, ORDER) == IdsOfSome(g, ORDER);
    h, ok := ConvertToGnssSvIdConfig(ids, ZERO_CONFIG, undefined);
    BackAgain(ids, g, h);
  }
}
