/** `TranslationUnit` and `TranslationManager`: the units of measure the
    device reports in (US gallons or liters), the conversion between sensor
    pulses and a unit under the user's calibration factor, and the
    conversion of stored amounts when the unit or the calibration changes.

    Amounts are reals; the firmware's `float` rounding is not modelled. The
    conversion codes `GalToLiter` and `LiterToGal` of `convert` are
    modelled as written and corrected: as written each one applies the
    other's formula. */
module Translation {
  import opened Seqs

  datatype Unit = Gallon | Liter

  /** `pulses_to_uom()`: sensor pulses per unit. */
  function PulsesPerUnit(u: Unit): (p: real)
    ensures p > 0.0
  {
    match u
    case Gallon => 1380.0
    case Liter => 364.56
  }

  function UomText(u: Unit): string {
    match u
    case Gallon => "gal"
    case Liter => "L"
  }

  function UpmText(u: Unit): string {
    match u
    case Gallon => "gpm"
    case Liter => "lpm"
  }

  /** `is_match(str)`: the unit's text or its per-minute text. The texts
      are unambiguous: the first letter of a matching text tells the unit,
      so no text matches both. */
  function IsMatch(u: Unit, s: string): (b: bool)
    ensures b ==> |s| >= 1 && (u == Gallon <==> s[0] == 'g')
  {
    s == UomText(u) || s == UpmText(u)
  }

  /** `convert_pulses_to_uom(pulses)`: the amount, in the unit, that the
      pulses stand for under the calibration. */
  function PulsesToUom(u: Unit, calibrate: real, pulses: real): (v: real)
    ensures v * PulsesPerUnit(u) == pulses * calibrate
  {
    (pulses / PulsesPerUnit(u)) * calibrate
  }

  /** `convert_uom_to_pulses(uom)`: the pulses an amount in the unit
      stands for under the calibration. */
  function UomToPulses(u: Unit, calibrate: real, v: real): (pulses: real)
    requires calibrate != 0.0
    ensures pulses * calibrate == v * PulsesPerUnit(u)
  {
    (v / calibrate) * PulsesPerUnit(u)
  }

  /** Pulses to a unit and back, and back again, are the identity. */
  lemma PulsesRoundTrip(u: Unit, calibrate: real, pulses: real, v: real)
    requires calibrate != 0.0
    ensures UomToPulses(u, calibrate, PulsesToUom(u, calibrate, pulses)) == pulses
    ensures PulsesToUom(u, calibrate, UomToPulses(u, calibrate, v)) == v
  {
    var p := PulsesPerUnit(u);
    calc {
      UomToPulses(u, calibrate, PulsesToUom(u, calibrate, pulses));
      ((pulses / p) * calibrate / calibrate) * p;
      { assert (pulses / p) * calibrate / calibrate == pulses / p; }
      (pulses / p) * p;
    }
    calc {
      PulsesToUom(u, calibrate, UomToPulses(u, calibrate, v));
      ((v / calibrate) * p / p) * calibrate;
      { assert (v / calibrate) * p / p == v / calibrate; }
      (v / calibrate) * calibrate;
    }
  }

  // ---------------------------------------------------------------------
  // The manager

  /** The current unit and the calibration factor shared by both units. */
  datatype Manager = Manager(current: Unit, calibrate: real)

  predicate Valid(m: Manager) {
    m.calibrate != 0.0
  }

  function Create(): (m: Manager)
    ensures Valid(m) && m.current == Gallon && m.calibrate == 1.0
  {
    Manager(Gallon, 1.0)
  }

  /** `set_calibrate_factor(f)`: both units follow the new factor. */
  function SetCalibrateFactor(m: Manager, f: real): (r: Manager)
    ensures r.calibrate == f && r.current == m.current
  {
    m.(calibrate := f)
  }

  /** `get_translation_unit(text)`: the first unit (gallons, then liters)
      whose text matches. */
  function GetTranslationUnit(s: string): (r: Option<Unit>)
    ensures r.Some? ==> IsMatch(r.value, s)
    ensures r.None? <==> !IsMatch(Gallon, s) && !IsMatch(Liter, s)
  {
    if IsMatch(Gallon, s) then Some(Gallon)
    else if IsMatch(Liter, s) then Some(Liter)
    else None
  }

  /** The four texts name four different things: each finds its own unit. */
  lemma TextsFindTheirUnit(u: Unit)
    ensures GetTranslationUnit(UomText(u)) == Some(u)
    ensures GetTranslationUnit(UpmText(u)) == Some(u)
  {
    assert UomText(Liter) != UomText(Gallon) && UomText(Liter) != UpmText(Gallon);
    assert UpmText(Liter) != UomText(Gallon) && UpmText(Liter) != UpmText(Gallon);
  }

  /** `set_current(text)`: switches to the unit the text names; reports
      whether the current unit changed. */
  function SetCurrent(m: Manager, s: string): (res: (Manager, bool))
    ensures res.0.calibrate == m.calibrate
    ensures res.1 <==> GetTranslationUnit(s).Some? && GetTranslationUnit(s).value != m.current
    ensures res.1 ==> IsMatch(res.0.current, s)
    ensures !res.1 ==> res.0 == m
  {
    match GetTranslationUnit(s)
    case Some(u) => if u != m.current then (m.(current := u), true) else (m, false)
    case None => (m, false)
  }

  datatype ConvertType = GalToLiter | LiterToGal | CalibrateChange | Invalid

  /** `get_convert_code(from)`: `from` is the text of the unit converted
      FROM; no text means a calibration change. */
  function GetConvertCode(from: Option<string>): (t: ConvertType)
    ensures from.None? <==> t == CalibrateChange
    ensures from.Some? && GetTranslationUnit(from.value) == Some(Gallon) <==> t == GalToLiter
    ensures from.Some? && GetTranslationUnit(from.value) == Some(Liter) <==> t == LiterToGal
  {
    match from
    case None => CalibrateChange
    case Some(s) =>
      match GetTranslationUnit(s)
      case None => Invalid
      case Some(u) => if IsMatch(u, "gal") then GalToLiter else LiterToGal
  }

  /** Re-expresses an amount in `to` that was expressed in `from`, going
      through pulses. */
  function Reexpress(calibrate: real, from: Unit, to: Unit, v: real): real
    requires calibrate != 0.0
  {
    PulsesToUom(to, calibrate, UomToPulses(from, calibrate, v))
  }

  /** Re-expressing keeps the amount of water: the result, read in `to`,
      stands for as many pulses as `v` did in `from`. */
  lemma ReexpressKeepsPulses(calibrate: real, from: Unit, to: Unit, v: real)
    requires calibrate != 0.0
    ensures UomToPulses(to, calibrate, Reexpress(calibrate, from, to, v)) ==
            UomToPulses(from, calibrate, v)
  {
    PulsesRoundTrip(to, calibrate, UomToPulses(from, calibrate, v), v);
  }

  /** `convert(type, val, old_calibrate)`, corrected: whatever the code, the
      converted amount stands for the same water. A unit code reads `v`
      in the unit it converts from and the result in the other unit; a
      calibration change reads `v` under the old factor and the result
      under the new one; an invalid code keeps `v`. */
  function Convert(m: Manager, t: ConvertType, v: real, oldCalibrate: real): (r: real)
    requires Valid(m)
    requires t == CalibrateChange ==> oldCalibrate != 0.0
    ensures t == GalToLiter ==> UomToPulses(Liter, m.calibrate, r) == UomToPulses(Gallon, m.calibrate, v)
    ensures t == LiterToGal ==> UomToPulses(Gallon, m.calibrate, r) == UomToPulses(Liter, m.calibrate, v)
    ensures t == CalibrateChange ==>
      UomToPulses(m.current, m.calibrate, r) == UomToPulses(m.current, oldCalibrate, v)
    ensures t == Invalid ==> r == v
  {
    match t
    case GalToLiter =>
      ReexpressKeepsPulses(m.calibrate, Gallon, Liter, v);
      Reexpress(m.calibrate, Gallon, Liter, v)
    case LiterToGal =>
      ReexpressKeepsPulses(m.calibrate, Liter, Gallon, v);
      Reexpress(m.calibrate, Liter, Gallon, v)
    case CalibrateChange =>
      assert (v / oldCalibrate) * m.calibrate / m.calibrate == v / oldCalibrate;
      (v / oldCalibrate) * m.calibrate
    case Invalid => v
  }

  /** `convert` as written: the gallon-to-liter code reads `v` in liters
      and gives gallons, and the liter-to-gallon code the other way round;
      the other codes are those of the corrected `convert`. */
  function ConvertAsWritten(m: Manager, t: ConvertType, v: real, oldCalibrate: real): (r: real)
    requires Valid(m)
    requires t == CalibrateChange ==> oldCalibrate != 0.0
    ensures t == GalToLiter ==> UomToPulses(Gallon, m.calibrate, r) == UomToPulses(Liter, m.calibrate, v)
    ensures t == LiterToGal ==> UomToPulses(Liter, m.calibrate, r) == UomToPulses(Gallon, m.calibrate, v)
    ensures t == CalibrateChange || t == Invalid ==> r == Convert(m, t, v, oldCalibrate)
  {
    match t
    case GalToLiter =>
      ReexpressKeepsPulses(m.calibrate, Liter, Gallon, v);
      Reexpress(m.calibrate, Liter, Gallon, v)
    case LiterToGal =>
      ReexpressKeepsPulses(m.calibrate, Gallon, Liter, v);
      Reexpress(m.calibrate, Gallon, Liter, v)
    case CalibrateChange => (v / oldCalibrate) * m.calibrate
    case Invalid => v
  }

  /** The scale the corrected conversion multiplies by. */
  function Factor(t: ConvertType, calibrate: real, oldCalibrate: real): real
    requires t == CalibrateChange ==> oldCalibrate != 0.0
  {
    match t
    case GalToLiter => 1380.0 / 364.56
    case LiterToGal => 364.56 / 1380.0
    case CalibrateChange => calibrate / oldCalibrate
    case Invalid => 1.0
  }

  /** Every conversion is a scaling, by a factor that does not depend on
      the amount. */
  lemma ConvertScales(m: Manager, t: ConvertType, v: real, oldCalibrate: real)
    requires Valid(m)
    requires t == CalibrateChange ==> oldCalibrate != 0.0
    ensures Convert(m, t, v, oldCalibrate) == v * Factor(t, m.calibrate, oldCalibrate)
  {
    var c := m.calibrate;
    match t
    case GalToLiter =>
      assert (v / c) * 1380.0 / 364.56 * c == v * (1380.0 / 364.56);
    case LiterToGal =>
      assert (v / c) * 364.56 / 1380.0 * c == v * (364.56 / 1380.0);
    case CalibrateChange =>
      assert (v / oldCalibrate) * c == v * (c / oldCalibrate);
    case Invalid =>
  }

  /** The same for every amount at once. */
  lemma ConvertScalesAll(m: Manager, t: ConvertType, oldCalibrate: real)
    requires Valid(m)
    requires t == CalibrateChange ==> oldCalibrate != 0.0
    ensures forall v :: Convert(m, t, v, oldCalibrate) == v * Factor(t, m.calibrate, oldCalibrate)
  {
    forall v {
      ConvertScales(m, t, v, oldCalibrate);
    }
  }

  /** Going to liters and back returns the original amount. */
  lemma ConvertRoundTrip(m: Manager, v: real)
    requires Valid(m)
    ensures Convert(m, LiterToGal, Convert(m, GalToLiter, v, 0.0), 0.0) == v
  {
    ConvertScales(m, GalToLiter, v, 0.0);
    ConvertScales(m, LiterToGal, Convert(m, GalToLiter, v, 0.0), 0.0);
    assert v * (1380.0 / 364.56) * (364.56 / 1380.0) == v;
  }

  /** `galToLiter(val)`, the manager's own helper: gallons to liters, a
      scaling by the ratio of the pulses per unit whatever the
      calibration. */
  function GalToLiterHelper(m: Manager, v: real): (r: real)
    requires Valid(m)
    ensures r == v * (1380.0 / 364.56)
  {
    var c := m.calibrate;
    assert (v / c) * 1380.0 / 364.56 * c == v * (1380.0 / 364.56);
    PulsesToUom(Liter, c, UomToPulses(Gallon, c, v))
  }

  /** One gallon converted to liters: the corrected code, like the helper,
      gives 1380 / 364.56 (about 3.785) liters; the code as written gives
      364.56 / 1380 (about 0.264). */
  lemma GallonToLiterSwapped(m: Manager)
    requires Valid(m)
    ensures Convert(m, GalToLiter, 1.0, 0.0) == GalToLiterHelper(m, 1.0) == 1380.0 / 364.56
    ensures ConvertAsWritten(m, GalToLiter, 1.0, 0.0) == 364.56 / 1380.0
  {
    ConvertScales(m, GalToLiter, 1.0, 0.0);
    var c := m.calibrate;
    assert (1.0 / c) * 364.56 / 1380.0 * c == 364.56 / 1380.0;
  }
}
