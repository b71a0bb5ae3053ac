/** The address map of the detailed memory model: a line address is split into column, channel,
    rank, bank and row in one of nine orders, with any number of channels. */
module AddressMap {

  function Pow2(n: nat): (r: nat)
    ensures r >= 1
  {
    if n == 0 then 1 else 2 * Pow2(n - 1)
  }

  /** The integer logarithm, rounded down; 0 for 0. */
  function Ilog2(n: nat): (r: nat)
    ensures n >= 1 ==> Pow2(r) <= n < 2 * Pow2(r)
  {
    if n <= 1 then 0 else Ilog2(n / 2) + 1
  }

  datatype Params = Params(interleaveType: nat, channelCount: nat, rankCount: nat, bankCount: nat,
                           colAddrWidth: nat, byteOffsetWidth: nat, channelDataWidthLog: nat)

  /** The column bits below the line: what the line is wider than the data bus. */
  function ColLowWidth(p: Params): (w: nat)
    ensures w + p.channelDataWidthLog >= p.byteOffsetWidth
    ensures w == 0 || w + p.channelDataWidthLog == p.byteOffsetWidth
  {
    if p.channelDataWidthLog < p.byteOffsetWidth then p.byteOffsetWidth - p.channelDataWidthLog else 0
  }

  predicate ValidParams(p: Params) {
    && p.interleaveType <= 8 && p.channelCount >= 1 && p.rankCount >= 1 && p.bankCount >= 1
    && ColLowWidth(p) <= p.colAddrWidth
  }

  datatype Location = Location(row: nat, col: nat, rank: nat, bank: nat, channel: nat)

  const ROWS: nat := 0x1_0000_0000     // the row is kept in 32 bits

  // ------------------------------------------------------- mixed-radix numbers

  /** With a power of two, a right shift and the mask of the bits it drops. */
  function Quot(x: nat, r: nat): (q: nat)
    requires r >= 1
  {
    x / r
  }

  function Rem(x: nat, r: nat): (d: nat)
    requires r >= 1
    ensures d < r
  {
    x % r
  }

  /** What is left of x after the i lowest digits. */
  function Peel(radix: seq<nat>, x: nat, i: nat): (r: nat)
    requires i <= |radix| && forall k :: 0 <= k < |radix| ==> radix[k] >= 1
  {
    if i == 0 then x else Quot(Peel(radix, x, i - 1), radix[i - 1])
  }

  function Digit(radix: seq<nat>, x: nat, i: nat): (d: nat)
    requires i < |radix| && forall k :: 0 <= k < |radix| ==> radix[k] >= 1
    ensures d < radix[i]
  {
    Rem(Peel(radix, x, i), radix[i])
  }

  /** The number with the given digits from the i-th on, and top above them. */
  function Join(radix: seq<nat>, digits: seq<nat>, top: nat, i: nat): (x: nat)
    requires |digits| == |radix| && i <= |radix|
    decreases |radix| - i
  {
    if i == |radix| then top else digits[i] + radix[i] * Join(radix, digits, top, i + 1)
  }

  predicate Radices(radix: seq<nat>) {
    forall k :: 0 <= k < |radix| ==> radix[k] >= 1
  }

  predicate DigitsOk(radix: seq<nat>, digits: seq<nat>) {
    |digits| == |radix| && forall k :: 0 <= k < |radix| ==> digits[k] < radix[k]
  }

  lemma {:induction false} JoinDigits(radix: seq<nat>, digits: seq<nat>, x: nat, i: nat)
    requires Radices(radix) && i <= |radix| && |digits| == |radix|
    requires forall k :: 0 <= k < |radix| ==> digits[k] == Digit(radix, x, k)
    ensures Join(radix, digits, Peel(radix, x, |radix|), i) == Peel(radix, x, i)
    decreases |radix| - i
  {
    hide Quot, Rem;
    if i < |radix| {
      JoinDigits(radix, digits, x, i + 1);
      var y, r := Peel(radix, x, i), radix[i];
      assert Peel(radix, x, i + 1) == Quot(y, r);
      DivMod(y, r);
    }
  }

  lemma DivMod(y: nat, r: nat)
    requires r >= 1
    ensures y == Rem(y, r) + r * Quot(y, r)
  {
  }

  lemma DigitOut(d: nat, r: nat, q: nat)
    requires d < r
    ensures Rem(d + r * q, r) == d && Quot(d + r * q, r) == q
  {
    var x: nat := d + r * q;
    DivMod(x, r);
    var e := Quot(x, r) - q;
    assert r * Quot(x, r) == r * q + r * e;
    assert Rem(x, r) == d - r * e;
    Zero(e, r, d);
  }

  lemma Zero(e: int, r: nat, d: nat)
    requires d < r && 0 <= d - r * e < r
    ensures e == 0
  {
    Grows(r, e);
  }

  lemma Grows(r: nat, e: int)
    ensures e >= 1 ==> r * e >= r
    ensures e <= -1 ==> r * e <= -(r as int)
  {
  }

  lemma {:induction false} PeelJoin(radix: seq<nat>, digits: seq<nat>, top: nat, i: nat)
    requires Radices(radix) && DigitsOk(radix, digits) && i <= |radix|
    ensures Peel(radix, Join(radix, digits, top, 0), i) == Join(radix, digits, top, i)
    ensures i < |radix| ==> Digit(radix, Join(radix, digits, top, 0), i) == digits[i]
    decreases i
  {
    hide Quot, Rem;
    if i > 0 {
      PeelJoin(radix, digits, top, i - 1);
      DigitOut(digits[i - 1], radix[i - 1], Join(radix, digits, top, i));
    }
    if i < |radix| {
      DigitOut(digits[i], radix[i], Join(radix, digits, top, i + 1));
    }
  }

  // ----------------------------------------------------------------- the layouts

  datatype Field = Channel | Rank | Bank | ColHigh

  /** Where a field stands above the low column bits, lowest first. */
  function Place(ty: nat, f: Field): (i: nat)
    ensures 1 <= i <= 4
  {
    match f
    case Channel => if ty <= 5 then 1 else if ty == 6 then 2 else if ty == 7 then 3 else 4
    case Rank =>
      if ty == 0 || ty == 2 then 2 else if ty == 1 || ty == 4 || ty == 8 then 3 else 4
    case Bank =>
      if ty == 1 || ty == 3 || ty == 7 || ty == 8 then 2 else if ty == 0 || ty == 5 || ty == 6 then 3 else 4
    case ColHigh =>
      if ty <= 1 then 4 else if ty <= 3 then 3 else if ty <= 5 then 2 else 1
  }

  /** No two fields share a place. */
  lemma PlacesDistinct(ty: nat, f: Field, h: Field)
    requires ty <= 8 && f != h
    ensures Place(ty, f) != Place(ty, h)
  {
  }

  function Radix(p: Params, f: Field): (r: nat)
    requires ValidParams(p)
    ensures r >= 1
  {
    match f
    case Channel => p.channelCount
    case Rank => Pow2(Ilog2(p.rankCount))
    case Bank => Pow2(Ilog2(p.bankCount))
    case ColHigh => Pow2(p.colAddrWidth - ColLowWidth(p))
  }

  function FieldAt(ty: nat, i: nat): Field
    requires 1 <= i <= 4
  {
    if Place(ty, Channel) == i then Channel
    else if Place(ty, Rank) == i then Rank
    else if Place(ty, Bank) == i then Bank
    else ColHigh
  }

  /** All radices of an address, lowest first; the row is on top. */
  function Scheme(p: Params): (radix: seq<nat>)
    requires ValidParams(p)
    ensures |radix| == 5 && Radices(radix)
  {
    var ty := p.interleaveType;
    [Pow2(ColLowWidth(p)), Radix(p, FieldAt(ty, 1)), Radix(p, FieldAt(ty, 2)),
     Radix(p, FieldAt(ty, 3)), Radix(p, FieldAt(ty, 4))]
  }

  lemma SchemeAt(p: Params, f: Field)
    requires ValidParams(p)
    ensures FieldAt(p.interleaveType, Place(p.interleaveType, f)) == f
    ensures Scheme(p)[Place(p.interleaveType, f)] == Radix(p, f)
  {
  }

  function Part(p: Params, addr: nat, f: Field): (d: nat)
    requires ValidParams(p)
    ensures d < Radix(p, f)
  {
    SchemeAt(p, f);
    Digit(Scheme(p), addr, Place(p.interleaveType, f))
  }

  /** What AddressMap computes, read off the layout. */
  function Locate(p: Params, addr: nat): (l: Location)
    requires ValidParams(p)
  {
    Location(Rem(Peel(Scheme(p), addr, 5), ROWS),
             Part(p, addr, ColHigh) * Pow2(ColLowWidth(p)) + Digit(Scheme(p), addr, 0),
             Part(p, addr, Rank), Part(p, addr, Bank), Part(p, addr, Channel))
  }

  /** The address that a location stands for. */
  function Compose(p: Params, l: Location): (addr: nat)
    requires ValidParams(p)
  {
    Join(Scheme(p), LocDigits(p, l), l.row, 0)
  }

  function FieldOf(p: Params, l: Location, f: Field): nat
    requires ValidParams(p)
  {
    match f
    case Channel => l.channel
    case Rank => l.rank
    case Bank => l.bank
    case ColHigh => Quot(l.col, Pow2(ColLowWidth(p)))
  }

  function LocDigits(p: Params, l: Location): (d: seq<nat>)
    requires ValidParams(p)
    ensures |d| == 5
  {
    var ty := p.interleaveType;
    [Rem(l.col, Pow2(ColLowWidth(p))), FieldOf(p, l, FieldAt(ty, 1)), FieldOf(p, l, FieldAt(ty, 2)),
     FieldOf(p, l, FieldAt(ty, 3)), FieldOf(p, l, FieldAt(ty, 4))]
  }

  predicate InRange(p: Params, l: Location)
    requires ValidParams(p)
  {
    && l.rank < Radix(p, Rank) && l.bank < Radix(p, Bank) && l.channel < p.channelCount
    && Quot(l.col, Pow2(ColLowWidth(p))) < Radix(p, ColHigh) && l.row < ROWS
  }

  /** Rank, bank and channel exist, whatever their numbers. */
  lemma PartsInRange(p: Params, addr: nat)
    requires ValidParams(p)
    ensures var l := Locate(p, addr);
            l.rank < p.rankCount && l.bank < p.bankCount && l.channel < p.channelCount && InRange(p, l)
  {
    hide Ilog2, Scheme, Digit, Quot, Rem;
    var low, high := Digit(Scheme(p), addr, 0), Part(p, addr, ColHigh);
    SchemeLow(p);
    DigitOut(low, Pow2(ColLowWidth(p)), high);
  }

  lemma SchemeLow(p: Params)
    requires ValidParams(p)
    ensures Scheme(p)[0] == Pow2(ColLowWidth(p))
  {
  }

  lemma LocateDigits(p: Params, addr: nat, k: nat)
    requires ValidParams(p) && k < 5
    ensures LocDigits(p, Locate(p, addr))[k] == Digit(Scheme(p), addr, k)
  {
    hide Digit, Radix, Pow2, Quot, Rem;
    var ty := p.interleaveType;
    var low, high := Digit(Scheme(p), addr, 0), Part(p, addr, ColHigh);
    SchemeLow(p);
    DigitOut(low, Pow2(ColLowWidth(p)), high);
    if k > 0 {
      PlaceOfField(ty, k);
    }
  }

  lemma PlaceOfField(ty: nat, i: nat)
    requires 1 <= i <= 4
    ensures ty <= 8 ==> Place(ty, FieldAt(ty, i)) == i
  {
  }

  lemma DigitsInRange(p: Params, l: Location, k: nat)
    requires ValidParams(p) && InRange(p, l) && k < 5
    ensures LocDigits(p, l)[k] < Scheme(p)[k]
  {
    hide Ilog2, Pow2, Quot, Rem;
  }

  /** The location determines the address exactly when the row fits in 32 bits. */
  lemma ComposeLocate(p: Params, addr: nat)
    requires ValidParams(p)
    ensures Compose(p, Locate(p, addr)) == addr <==> Peel(Scheme(p), addr, 5) < ROWS
  {
    hide Digit, Scheme, LocDigits, Part, Rem, InRange, Join;
    var r, l := Scheme(p), Locate(p, addr);
    var d, row := LocDigits(p, l), Peel(r, addr, 5);
    forall k | 0 <= k < 5
      ensures d[k] == Digit(r, addr, k)
    {
      LocateDigits(p, addr, k);
    }
    if row < ROWS {
      SmallRem(row);
      JoinDigits(r, d, addr, 0);
    } else {
      PeelJoin(r, d, l.row, 5);
      TopIsRow(r, d, l.row);
    }
  }

  lemma SmallRem(row: nat)
    ensures row < ROWS ==> Rem(row, ROWS) == row
  {
  }

  /** Every location in range is the image of the address composed from it. */
  lemma LocateCompose(p: Params, l: Location)
    requires ValidParams(p) && InRange(p, l)
    ensures Locate(p, Compose(p, l)) == l
  {
    hide Scheme, LocDigits, Join, Digit, Pow2, Radix, Quot, Rem, Part, Compose, Peel;
    var addr := Compose(p, l);
    ComposedParts(p, l);
    DivMod(l.col, Pow2(ColLowWidth(p)));
    SmallRem(l.row);
    assert Part(p, addr, Channel) == l.channel && Part(p, addr, Rank) == l.rank && Part(p, addr, Bank) == l.bank;
    assert Part(p, addr, ColHigh) == Quot(l.col, Pow2(ColLowWidth(p)));
  }

  /** The digits of a composed address are the fields of the location. */
  lemma ComposedParts(p: Params, l: Location)
    requires ValidParams(p) && InRange(p, l)
    ensures var addr := Compose(p, l);
            && (forall f: Field :: Part(p, addr, f) == FieldOf(p, l, f))
            && Digit(Scheme(p), addr, 0) == Rem(l.col, Pow2(ColLowWidth(p)))
            && Peel(Scheme(p), addr, 5) == l.row
  {
    hide Scheme, LocDigits, Join, Digit, Pow2, Radix, Quot, Rem;
    var r, d := Scheme(p), LocDigits(p, l);
    forall k | 0 <= k < 5
      ensures d[k] < r[k]
    {
      DigitsInRange(p, l, k);
    }
    forall k: nat | k <= 5
      ensures Peel(r, Compose(p, l), k) == Join(r, d, l.row, k)
      ensures k < 5 ==> Digit(r, Compose(p, l), k) == d[k]
    {
      PeelJoin(r, d, l.row, k);
    }
    TopIsRow(r, d, l.row);
    FieldsBack(p, l);
  }

  lemma TopIsRow(r: seq<nat>, d: seq<nat>, row: nat)
    requires |r| == |d| == 5
    ensures Join(r, d, row, 5) == row
  {
  }

  lemma FieldsBack(p: Params, l: Location)
    requires ValidParams(p)
    ensures forall f: Field :: LocDigits(p, l)[Place(p.interleaveType, f)] == FieldOf(p, l, f)
    ensures LocDigits(p, l)[0] == Rem(l.col, Pow2(ColLowWidth(p)))
  {
    hide Pow2;
    forall f: Field
      ensures LocDigits(p, l)[Place(p.interleaveType, f)] == FieldOf(p, l, f)
    {
      SchemeAt(p, f);
    }
  }

  /** Two line addresses whose rows fit in 32 bits never share a location. */
  lemma LocateInjective(p: Params, a: nat, b: nat)
    requires ValidParams(p) && Peel(Scheme(p), a, 5) < ROWS && Peel(Scheme(p), b, 5) < ROWS
    requires Locate(p, a) == Locate(p, b)
    ensures a == b
  {
    hide Locate, Compose, Peel, Scheme;
    ComposeLocate(p, a);
    ComposeLocate(p, b);
  }

  // ------------------------------------------------------------ the layouts, written out

  function Product(a: nat, b: nat): nat { a * b }

  function Times(factors: seq<nat>): nat {
    if factors == [] then 1 else Product(Times(factors[..|factors| - 1]), factors[|factors| - 1])
  }

  /** The digit of x above the given factors, of the given radix. */
  function DigitAbove(x: nat, below: seq<nat>, radix: nat): nat {
    if Times(below) == 0 || radix == 0 then 0 else x / Times(below) % radix
  }

  /** The fields, each by the sizes of the fields below it. */
  predicate FieldsAt(p: Params, addr: nat, l: Location, chan: seq<nat>, rank: seq<nat>, bank: seq<nat>, col: seq<nat>,
                     row: seq<nat>)
    requires ValidParams(p)
  {
    var low := Pow2(ColLowWidth(p));
    && l.channel == DigitAbove(addr, chan, p.channelCount)
    && l.rank == DigitAbove(addr, rank, Pow2(Ilog2(p.rankCount)))
    && l.bank == DigitAbove(addr, bank, Pow2(Ilog2(p.bankCount)))
    && l.col == DigitAbove(addr, col, Pow2(p.colAddrWidth - ColLowWidth(p))) * low + addr % low
    && l.row == DigitAbove(addr, row, ROWS)
  }

  /** The nine layouts, as the source lists them, lowest field first. */
  predicate LaidOut(p: Params, addr: nat, l: Location)
    requires ValidParams(p)
  {
    var o, c, r := Pow2(ColLowWidth(p)), p.channelCount, Pow2(Ilog2(p.rankCount));
    var b, h := Pow2(Ilog2(p.bankCount)), Pow2(p.colAddrWidth - ColLowWidth(p));
    match p.interleaveType
    case 0 => FieldsAt(p, addr, l, [o], [o, c], [o, c, r], [o, c, r, b], [o, c, r, b, h])
    case 1 => FieldsAt(p, addr, l, [o], [o, c, b], [o, c], [o, c, b, r], [o, c, b, r, h])
    case 2 => FieldsAt(p, addr, l, [o], [o, c], [o, c, r, h], [o, c, r], [o, c, r, h, b])
    case 3 => FieldsAt(p, addr, l, [o], [o, c, b, h], [o, c], [o, c, b], [o, c, b, h, r])
    case 4 => FieldsAt(p, addr, l, [o], [o, c, h], [o, c, h, r], [o, c], [o, c, h, r, b])
    case 5 => FieldsAt(p, addr, l, [o], [o, c, h, b], [o, c, h], [o, c], [o, c, h, b, r])
    case 6 => FieldsAt(p, addr, l, [o, h], [o, h, c, b], [o, h, c], [o], [o, h, c, b, r])
    case 7 => FieldsAt(p, addr, l, [o, h, b], [o, h, b, c], [o, h], [o], [o, h, b, c, r])
    case _ => FieldsAt(p, addr, l, [o, h, b, r], [o, h, b], [o, h], [o], [o, h, b, r, c])
  }

  lemma Assemble(a: nat, b: nat, e: nat, f: nat, q: nat)
    requires e < a && f < b
    ensures e + a * (f + b * q) == e + a * f + Product(a, b) * q
    ensures e + a * f < Product(a, b)
  {
    assert a * (f + b * q) == a * f + (a * b) * q;
    Multiple(a, f + 1, b);
    assert a * (f + 1) == a * f + a;
  }

  lemma Multiple(a: nat, f: nat, b: nat)
    requires f <= b
    ensures a * f <= a * b
  {
    assert a * b == a * f + a * (b - f);
  }

  lemma QuotQuot(x: nat, a: nat, b: nat)
    requires a >= 1 && b >= 1
    ensures Product(a, b) >= 1 && Quot(x, Product(a, b)) == Quot(Quot(x, a), b)
  {
    hide Quot, Rem, Product;
    var y := Quot(x, a);
    DivMod(x, a);
    DivMod(y, b);
    Assemble(a, b, Rem(x, a), Rem(y, b), Quot(y, b));
    DigitOut(Rem(x, a) + a * Rem(y, b), Product(a, b), Quot(y, b));
  }

  lemma {:induction false} PeelIsQuot(radix: seq<nat>, x: nat, i: nat)
    requires Radices(radix) && i <= |radix|
    ensures Times(radix[..i]) >= 1 && Peel(radix, x, i) == Quot(x, Times(radix[..i]))
  {
    hide Quot, Product;
    if i == 0 {
      QuotOne(x);
    } else {
      PeelIsQuot(radix, x, i - 1);
      assert radix[..i][..i - 1] == radix[..i - 1];
      QuotQuot(x, Times(radix[..i - 1]), radix[i - 1]);
    }
  }

  lemma QuotOne(x: nat)
    ensures Quot(x, 1) == x
  {
  }

  lemma DigitIsAbove(radix: seq<nat>, x: nat, i: nat)
    requires Radices(radix) && i < |radix|
    ensures Digit(radix, x, i) == DigitAbove(x, radix[..i], radix[i])
  {
    hide Times;
    PeelIsQuot(radix, x, i);
  }

  lemma PartIsAbove(p: Params, addr: nat, f: Field)
    requires ValidParams(p)
    ensures Part(p, addr, f) == DigitAbove(addr, Scheme(p)[..Place(p.interleaveType, f)], Radix(p, f))
  {
    hide Digit, DigitAbove, Pow2, Ilog2, Scheme;
    SchemeAt(p, f);
    DigitIsAbove(Scheme(p), addr, Place(p.interleaveType, f));
  }

  lemma RowIsAbove(p: Params, addr: nat)
    requires ValidParams(p)
    ensures Rem(Peel(Scheme(p), addr, 5), ROWS) == DigitAbove(addr, Scheme(p), ROWS)
  {
    hide Times, Scheme, Peel;
    PeelIsQuot(Scheme(p), addr, 5);
    assert Scheme(p)[..5] == Scheme(p);
  }

  /** What the map computes, with nothing but the address, the sizes of the fields and the
      nine layouts. */
  lemma MapIsLayout(p: Params, addr: nat)
    requires ValidParams(p)
    ensures LaidOut(p, addr, Locate(p, addr))
  {
    hide DigitAbove, Pow2, Ilog2, Peel, Part, Digit;
    PartIsAbove(p, addr, Channel);
    PartIsAbove(p, addr, Rank);
    PartIsAbove(p, addr, Bank);
    PartIsAbove(p, addr, ColHigh);
    RowIsAbove(p, addr);
    LowDigit(p, addr);
    var s := Scheme(p);
    assert s[..1] == [s[0]] && s[..2] == [s[0], s[1]] && s[..3] == [s[0], s[1], s[2]];
    assert s[..4] == [s[0], s[1], s[2], s[3]] && s == [s[0], s[1], s[2], s[3], s[4]];
  }

  // ------------------------------------------------------------------- the methods

  /** The channel that ReturnChannel chooses. */
  method ReturnChannel(p: Params, lineAddr: nat) returns (channel: nat)
    requires ValidParams(p)
    ensures channel == Locate(p, lineAddr).channel
  {
    hide Pow2, Ilog2, Quot, Rem;
    ghost var r := Scheme(p);
    var low := ColLowWidth(p);
    var addr := Quot(lineAddr, Pow2(low));
    assert addr == Peel(r, lineAddr, 1);
    var result := addr;
    match p.interleaveType {
      case 6 =>
        result := Quot(result, Pow2(p.colAddrWidth - low));
        assert result == Peel(r, lineAddr, 2);
      case 7 =>
        result := Quot(result, Pow2(p.colAddrWidth - low));
        assert result == Peel(r, lineAddr, 2);
        result := Quot(result, Pow2(Ilog2(p.bankCount)));
        assert result == Peel(r, lineAddr, 3);
      case 8 =>
        result := Quot(result, Pow2(p.colAddrWidth - low));
        assert result == Peel(r, lineAddr, 2);
        result := Quot(result, Pow2(Ilog2(p.bankCount)));
        assert result == Peel(r, lineAddr, 3);
        result := Quot(result, Pow2(Ilog2(p.rankCount)));
        assert result == Peel(r, lineAddr, 4);
      case _ =>
    }
    channel := Rem(result, p.channelCount);
  }

  /** One step of the map: the field f comes off an address that is peeled up to its place. */
  method TakeField(p: Params, ghost x: nat, addr: nat, f: Field) returns (digit: nat, rest: nat)
    requires ValidParams(p) && addr == Peel(Scheme(p), x, Place(p.interleaveType, f))
    ensures digit == Part(p, x, f) && rest == Peel(Scheme(p), x, Place(p.interleaveType, f) + 1)
  {
    hide Quot, Rem, Radix, Scheme, Place;
    SchemeAt(p, f);
    digit, rest := Rem(addr, Radix(p, f)), Quot(addr, Radix(p, f));
  }

  /** AddressMap. */
  method MapAddress(p: Params, lineAddr: nat) returns (l: Location)
    requires ValidParams(p)
    ensures l == Locate(p, lineAddr) && LaidOut(p, lineAddr, l)
  {
    hide Pow2, Radix, Part, Scheme, Digit, Quot, Rem, LaidOut;
    var ty, low := p.interleaveType, Pow2(ColLowWidth(p));
    SchemeLow(p);
    var colLow, addr := Rem(lineAddr, low), Quot(lineAddr, low);
    LowDigit(p, lineAddr);
    var chnl, colHigh, rank, bank;
    if ty <= 5 {
      chnl, addr := TakeField(p, lineAddr, addr, Channel);
    }
    if ty >= 4 {
      colHigh, addr := TakeField(p, lineAddr, addr, ColHigh);
    }
    match ty {
      case 0 =>
        rank, addr := TakeField(p, lineAddr, addr, Rank);
        bank, addr := TakeField(p, lineAddr, addr, Bank);
        colHigh, addr := TakeField(p, lineAddr, addr, ColHigh);
      case 1 =>
        bank, addr := TakeField(p, lineAddr, addr, Bank);
        rank, addr := TakeField(p, lineAddr, addr, Rank);
        colHigh, addr := TakeField(p, lineAddr, addr, ColHigh);
      case 2 =>
        rank, addr := TakeField(p, lineAddr, addr, Rank);
        colHigh, addr := TakeField(p, lineAddr, addr, ColHigh);
        bank, addr := TakeField(p, lineAddr, addr, Bank);
      case 3 =>
        bank, addr := TakeField(p, lineAddr, addr, Bank);
        colHigh, addr := TakeField(p, lineAddr, addr, ColHigh);
        rank, addr := TakeField(p, lineAddr, addr, Rank);
      case 4 =>
        rank, addr := TakeField(p, lineAddr, addr, Rank);
        bank, addr := TakeField(p, lineAddr, addr, Bank);
      case 5 =>
        bank, addr := TakeField(p, lineAddr, addr, Bank);
        rank, addr := TakeField(p, lineAddr, addr, Rank);
      case 6 =>
        chnl, addr := TakeField(p, lineAddr, addr, Channel);
        bank, addr := TakeField(p, lineAddr, addr, Bank);
        rank, addr := TakeField(p, lineAddr, addr, Rank);
      case 7 =>
        bank, addr := TakeField(p, lineAddr, addr, Bank);
        chnl, addr := TakeField(p, lineAddr, addr, Channel);
        rank, addr := TakeField(p, lineAddr, addr, Rank);
      case _ =>
        bank, addr := TakeField(p, lineAddr, addr, Bank);
        rank, addr := TakeField(p, lineAddr, addr, Rank);
        chnl, addr := TakeField(p, lineAddr, addr, Channel);
    }
    l := Location(Rem(addr, ROWS), colHigh * low + colLow, rank, bank, chnl);
    MapIsLayout(p, lineAddr);
  }

  lemma LowDigit(p: Params, x: nat)
    requires ValidParams(p)
    ensures Digit(Scheme(p), x, 0) == Rem(x, Pow2(ColLowWidth(p)))
    ensures Peel(Scheme(p), x, 1) == Quot(x, Pow2(ColLowWidth(p)))
  {
  }
}
