/** Records and small enumerations of the YY1 converter (src/yy1/mod.rs):
    nozzle kinds, the two heads, the three nozzle stations, a nozzle change
    and its header line, the component row and the package renaming rule. */
module Yy1 {

  datatype Option<+T> = None | Some(value: T) {
    /** `Option::unwrap_or` */
    function UnwrapOr(default: T): T {
      match this
      case Some(v) => v
      case None => default
    }
  }

  /** The outcome of code that may abort: `Panic` stands for a Rust panic
      (`unreachable!()`, a failed `assert!`). */
  datatype Result<+T> = Ok(value: T) | Panic(reason: string)

  /** An unsigned 8-bit CSV field (`u8`). */
  newtype u8 = x: int | 0 <= x < 256

  /** Nozzle kinds, in declaration order (the order `#[derive(Ord)]` uses). */
  datatype Nozzle =
    | CN030 | CN040 | CN065 | CN100 | CN140 | CN220 | CN400 | CN750
    | YX01 | YX02 | YX03 | YX04 | YX05 | YX06

  /** Position of a nozzle kind in the declaration order. */
  function Ordinal(n: Nozzle): (r: nat)
    ensures r < 14
  {
    match n
    case CN030 => 0
    case CN040 => 1
    case CN065 => 2
    case CN100 => 3
    case CN140 => 4
    case CN220 => 5
    case CN400 => 6
    case CN750 => 7
    case YX01 => 8
    case YX02 => 9
    case YX03 => 10
    case YX04 => 11
    case YX05 => 12
    case YX06 => 13
  }

  /** The derived order compares nozzles by declaration position only:
      two kinds are ordered the same way exactly when they are the same kind. */
  lemma OrdinalInjective(a: Nozzle, b: Nozzle)
    ensures Ordinal(a) == Ordinal(b) <==> a == b
  {
  }

  datatype Head = Head1 | Head2

  /** `impl Not for Head`: the other head. */
  function Not(h: Head): (r: Head)
    ensures r != h
  {
    match h
    case Head1 => Head2
    case Head2 => Head1
  }

  /** `!` is an involution. */
  lemma NotInvolution(h: Head)
    ensures Not(Not(h)) == h && Not(h) != h
  {
  }

  /** The discriminant `head as u8` (`Head1 = 1`, `Head2 = 2`), the value
      written into a component's Head column. */
  function HeadNumber(h: Head): (r: u8)
    ensures r == 1 || r == 2
    ensures r == 1 <==> h == Head1
  {
    match h
    case Head1 => 1
    case Head2 => 2
  }

  datatype NozzleStation = Station1 | Station2 | Station3

  /** The station's number, which orders the stations when one is chosen for a drop. */
  function StationNumber(s: NozzleStation): (r: nat)
    ensures 1 <= r <= 3
    ensures r == 1 <==> s == Station1
    ensures r == 3 <==> s == Station3
  {
    match s
    case Station1 => 1
    case Station2 => 2
    case Station3 => 3
  }

  /** One nozzle change: before component `beforeComponent` (1-based), `head`
      drops its nozzle into `dropStation` and picks up from `pickupStation`. */
  datatype NozzleChange = NozzleChange(
    enabled: bool,
    beforeComponent: nat,
    head: Head,
    dropStation: NozzleStation,
    pickupStation: NozzleStation)

  /** `NozzleChange::default()`: the disabled filler line of the header. */
  function DefaultChange(): (r: NozzleChange)
    ensures !r.enabled
    ensures r.beforeComponent == 1 && r.head == Head1
    ensures r.dropStation == Station3 && r.pickupStation == Station3
  {
    NozzleChange(false, 1, Head1, Station3, Station3)
  }

  // ---------------------------------------------------------------------
  // Header line of a nozzle change (`NozzleChange::as_string`)

  function DigitChar(d: nat): (c: char)
    requires d < 10
    ensures '0' <= c <= '9'
    ensures c as int - '0' as int == d
  {
    (d + '0' as int) as char
  }

  /** Decimal rendering of a `usize` (`{}` formatting). */
  function NatToString(n: nat): (r: string)
    ensures |r| >= 1
    ensures n >= 10 ==> |r| >= 2
    ensures forall i :: 0 <= i < |r| ==> '0' <= r[i] <= '9'
    decreases n
  {
    if n < 10 then [DigitChar(n)] else NatToString(n / 10) + [DigitChar(n % 10)]
  }

  /** The number a string of decimal digits denotes, most significant first. */
  function DecimalValue(s: string): nat
    requires forall i :: 0 <= i < |s| ==> '0' <= s[i] <= '9'
    decreases |s|
  {
    if s == [] then 0 else DecimalValue(s[..|s| - 1]) * 10 + (s[|s| - 1] as int - '0' as int)
  }

  /** The rendering reads back as the number: its digits are those of `n`,
      most significant first. */
  lemma {:induction false} NatToStringValue(n: nat)
    ensures DecimalValue(NatToString(n)) == n
    decreases n
  {
    var r := NatToString(n);
    if n >= 10 {
      var p := NatToString(n / 10);
      assert r == p + [DigitChar(n % 10)];
      assert r[..|r| - 1] == p;
      NatToStringValue(n / 10);
    }
  }

  /** Distinct numbers are rendered as distinct strings. */
  lemma {:induction false} NatToStringInjective(a: nat, b: nat)
    requires NatToString(a) == NatToString(b)
    ensures a == b
    decreases a
  {
    var sa, sb := NatToString(a), NatToString(b);
    if a < 10 && b < 10 {
      assert sa[0] == DigitChar(a) && sb[0] == DigitChar(b);
    } else if a >= 10 && b >= 10 {
      var pa, pb := NatToString(a / 10), NatToString(b / 10);
      assert sa == pa + [DigitChar(a % 10)] && sb == pb + [DigitChar(b % 10)];
      assert sa[|sa| - 1] == DigitChar(a % 10) && sb[|sb| - 1] == DigitChar(b % 10);
      assert sa[..|sa| - 1] == pa && sb[..|sb| - 1] == pb;
      NatToStringInjective(a / 10, b / 10);
    }
  }

  /** `{:?}` of a head. */
  function HeadName(h: Head): (r: string)
    ensures |r| == 5
  {
    match h
    case Head1 => "Head1"
    case Head2 => "Head2"
  }

  /** `{:?}` of a station. */
  function StationName(s: NozzleStation): (r: string)
    ensures |r| == 8
  {
    match s
    case Station1 => "Station1"
    case Station2 => "Station2"
    case Station3 => "Station3"
  }

  function StateToken(enabled: bool): string {
    if enabled then "ON" else "OFF"
  }

  /** The trailing fields of a header line: head, drop station, pickup station. */
  function Placement(c: NozzleChange): (r: string)
    ensures |r| == 36
  {
    HeadName(c.head) + ",Drop," + StationName(c.dropStation) + ",PickUp," + StationName(c.pickupStation) + ","
  }

  /** The fixed lead of a header line, up to the component number. */
  function Lead(enabled: bool): (r: string)
    ensures |r| > 16
    ensures r[..13] == "NozzleChange," && r[14] == (if enabled then 'N' else 'F')
  {
    "NozzleChange," + StateToken(enabled) + ",BeforeComponent,"
  }

  /** `NozzleChange::as_string`: the line the header holds for one change. The
      line starts with "NozzleChange,ON," exactly when the change is enabled. */
  function AsString(c: NozzleChange): (r: string)
    ensures |r| > 16
    ensures r[..16] == "NozzleChange,ON," <==> c.enabled
  {
    var lead := Lead(c.enabled);
    var r := lead + (NatToString(c.beforeComponent) + "," + Placement(c));
    assert r[..16] == lead[..16];
    assert r[14] == lead[14];
    r
  }

  /** The labels and fields of `Placement`, at fixed offsets. */
  lemma PlacementFields(c: NozzleChange)
    ensures var p := Placement(c);
      && p[..5] == HeadName(c.head) && p[5..11] == ",Drop,"
      && p[11..19] == StationName(c.dropStation) && p[19..27] == ",PickUp,"
      && p[27..35] == StationName(c.pickupStation) && p[35] == ','
  {
    var h, ds, ps := HeadName(c.head), StationName(c.dropStation), StationName(c.pickupStation);
    assert Placement(c) == h + ",Drop," + ds + ",PickUp," + ps + ",";
  }

  /** The lead of a header line: the state token, then ",BeforeComponent,". */
  lemma LeadFields(enabled: bool)
    ensures var lead := Lead(enabled);
      && |lead| == (if enabled then 32 else 33)
      && (!enabled <==> lead[..17] == "NozzleChange,OFF,")
      && lead[|lead| - 17..] == ",BeforeComponent,"
  {
  }

  /** A header line is its lead, the component number, a comma and the
      placement, each at its place. */
  lemma AsStringSplit(c: NozzleChange)
    ensures var r, lead, d := AsString(c), Lead(c.enabled), NatToString(c.beforeComponent);
      && |r| == |lead| + |d| + 37
      && r[..|lead|] == lead
      && r[|lead|..|r| - 37] == d
      && r[|r| - 37] == ','
      && r[|r| - 36..] == Placement(c)
  {
    var lead, d, p := Lead(c.enabled), NatToString(c.beforeComponent), Placement(c);
    var tail := d + "," + p;
    assert AsString(c) == lead + tail;
    assert (lead + tail)[|lead|..] == tail;
    assert tail[..|d|] == d && tail[|d|] == ',' && tail[|d| + 1..] == p;
  }

  /** The state token of a header line: "ON" for an enabled change and
      "OFF" for a disabled one, then ",BeforeComponent,". */
  lemma AsStringState(c: NozzleChange)
    ensures var r := AsString(c);
      var k := if c.enabled then 32 else 33;
      && k + 37 <= |r|
      && (c.enabled <==> r[..16] == "NozzleChange,ON,")
      && (!c.enabled <==> r[..17] == "NozzleChange,OFF,")
      && r[k - 17..k] == ",BeforeComponent,"
  {
    var r, lead := AsString(c), Lead(c.enabled);
    AsStringSplit(c);
    LeadFields(c.enabled);
    assert r[..17] == lead[..17];
    assert r[|lead| - 17..|lead|] == lead[|lead| - 17..];
  }

  /** The component number of a header line, in decimal, after the lead and
      before the comma that opens the placement. */
  lemma AsStringNumber(c: NozzleChange)
    ensures var r := AsString(c);
      var k := if c.enabled then 32 else 33;
      && k + 37 <= |r|
      && (forall i :: k <= i < |r| - 37 ==> '0' <= r[i] <= '9')
      && DecimalValue(r[k..|r| - 37]) == c.beforeComponent
      && r[|r| - 37] == ','
  {
    AsStringSplit(c);
    LeadFields(c.enabled);
    NatToStringValue(c.beforeComponent);
  }

  /** The end of a header line: the head, the drop station and the pickup
      station, in that order, each after its label and followed by a comma. */
  lemma AsStringPlacement(c: NozzleChange)
    ensures var r := AsString(c);
      && |r| >= 37
      && r[|r| - 36..|r| - 31] == HeadName(c.head)
      && r[|r| - 31..|r| - 25] == ",Drop,"
      && r[|r| - 25..|r| - 17] == StationName(c.dropStation)
      && r[|r| - 17..|r| - 9] == ",PickUp,"
      && r[|r| - 9..|r| - 1] == StationName(c.pickupStation)
      && r[|r| - 1] == ','
  {
    var r, p := AsString(c), Placement(c);
    AsStringSplit(c);
    PlacementFields(c);
    var x := r[..|r| - 36];
    assert r == x + p;
    SliceOfSuffix(x, p, 0, 5);
    SliceOfSuffix(x, p, 5, 11);
    SliceOfSuffix(x, p, 11, 19);
    SliceOfSuffix(x, p, 19, 27);
    SliceOfSuffix(x, p, 27, 35);
  }

  lemma SliceOfSuffix(x: string, p: string, a: nat, b: nat)
    requires a <= b <= |p|
    ensures (x + p)[|x| + a..|x| + b] == p[a..b]
  {
  }

  /** If `a + x == b + y` and `a`, `b` have the same length, the parts agree. */
  lemma CancelPrefix(a: string, x: string, b: string, y: string)
    requires |a| == |b| && a + x == b + y
    ensures a == b && x == y
  {
    assert a == (a + x)[..|a|] && b == (b + y)[..|b|];
    assert x == (a + x)[|a|..] && y == (b + y)[|b|..];
  }

  /** Where the characters of `d + "," + t` come from. */
  lemma FieldChars(d: string, t: string)
    ensures (d + "," + t)[|d|] == ','
    ensures forall i :: 0 <= i < |d| ==> (d + "," + t)[i] == d[i]
  {
  }

  /** A comma-free field followed by a comma splits a string uniquely. */
  lemma SplitAtComma(d1: string, t1: string, d2: string, t2: string)
    requires forall i :: 0 <= i < |d1| ==> d1[i] != ','
    requires forall i :: 0 <= i < |d2| ==> d2[i] != ','
    requires d1 + "," + t1 == d2 + "," + t2
    ensures d1 == d2 && t1 == t2
  {
    FieldChars(d1, t1);
    FieldChars(d2, t2);
    if |d1| < |d2| {
      assert false;
    } else if |d2| < |d1| {
      assert false;
    }
    assert d1 + "," + t1 == d1 + ("," + t1) && d2 + "," + t2 == d2 + ("," + t2);
    CancelPrefix(d1, "," + t1, d2, "," + t2);
    CancelPrefix(",", t1, ",", t2);
  }

  lemma PlacementInjective(a: NozzleChange, b: NozzleChange)
    requires Placement(a) == Placement(b)
    ensures a.head == b.head && a.dropStation == b.dropStation && a.pickupStation == b.pickupStation
  {
    var pa, pb := Placement(a), Placement(b);
    assert pa[4] == pb[4] && pa[18] == pb[18] && pa[34] == pb[34];
  }

  /** Distinct nozzle changes give distinct header lines: the line loses no
      field of the change. */
  lemma {:induction false} AsStringInjective(a: NozzleChange, b: NozzleChange)
    requires AsString(a) == AsString(b)
    ensures a == b
  {
    var la, lb := Lead(a.enabled), Lead(b.enabled);
    var da, db := NatToString(a.beforeComponent), NatToString(b.beforeComponent);
    var ta, tb := da + "," + Placement(a), db + "," + Placement(b);
    assert AsString(a) == la + ta && AsString(b) == lb + tb;
    assert (la + ta)[14] == la[14] && (lb + tb)[14] == lb[14];
    assert a.enabled == b.enabled;
    CancelPrefix(la, ta, lb, tb);
    SplitAtComma(da, Placement(a), db, Placement(b));
    NatToStringInjective(a.beforeComponent, b.beforeComponent);
    PlacementInjective(a, b);
  }

  // ---------------------------------------------------------------------
  // Component rows

  /** A row of the machine file. The floating-point columns (position,
      rotation, pick height) are not modelled; the place height only serves
      as a sort key and is an integer here. */
  datatype ComponentRecord = ComponentRecord(
    reference: string,
    value: string,
    package: string,
    head: u8,
    feeder: u8,
    mountSpeed: u8,
    placeHeight: int,
    mode: u8,
    skip: u8,
    nozzle: Option<Nozzle>)

  /** `ComponentRecord::placeholder()`: the inert row that anchors the
      trailing reversal changes. */
  function Placeholder(): (r: ComponentRecord)
    ensures r.skip == 1 && r.head == 0 && r.nozzle == None
    ensures r.reference == "PH" && r.value == "Placeholder" && r.package == "Placeholder"
    ensures r.feeder == 0 && r.mountSpeed == 0 && r.mode == 0 && r.placeHeight == 0
  {
    ComponentRecord("PH", "Placeholder", "Placeholder", 0, 0, 0, 0, 0, 1, None)
  }

  /** A row of the KiCad position file (its float columns are not modelled). */
  datatype KiCadRecord = KiCadRecord(reference: string, value: string, package: string)

  /** `From<KiCadRecord> for ComponentRecord`: keeps the designator, value and
      package; the row is not skipped, has no head, feeder or nozzle yet and
      mounts at full speed. */
  function FromKiCad(k: KiCadRecord): (r: ComponentRecord)
    ensures r.reference == k.reference && r.value == k.value && r.package == k.package
    ensures r.head == 0 && r.skip == 0 && r.feeder == 0 && r.mountSpeed == 100
    ensures r.nozzle == None && r.mode == 0 && r.placeHeight == 0
  {
    ComponentRecord(k.reference, k.value, k.package, 0, 0, 100, 0, 0, 0, None)
  }

  /** One line of the package map file. */
  datatype PackageMap = PackageMap(from: string, to: string) {
    /** `PackageMap::rename`: applies exactly to the package named `from`. */
    function Rename(package: string): (r: Option<string>)
      ensures r.Some? <==> package == from
      ensures r.Some? ==> r.value == to
    {
      if from == package then Some(to) else None
    }
  }
}
