/** The dashboard's power-limit slider, in 32-bit integers as the program has them. */
module Slider {
  import opened Wrappers
  import opened Text
  import opened Names
  import opened Sysfs
  import opened Attrs

  const HALF: int := 0x8000_0000

  type i32 = x: int | -HALF <= x < HALF

  /** The unsigned value's bits, read as a signed one. */
  function AsI32(v: u32): i32 {
    if v < HALF then v else v - 2 * HALF
  }

  function SaturatingAdd(a: i32, b: i32): i32 {
    if a + b >= HALF then HALF - 1 else if a + b < -HALF then -HALF else a + b
  }

  /** None stands for the panic that ends the program when the bounds are crossed. */
  function Clamp(v: i32, lo: i32, hi: i32): Option<i32> {
    if lo > hi then None else Some(if v < lo then lo else if v > hi then hi else v)
  }

  datatype SliderBounds = SliderBounds(value: i32, min: i32, max: i32)

  function FromAttr(a: AttrInfo): Option<SliderBounds> {
    var min := AsI32(a.min);
    var max := if a.max > a.min then AsI32(a.max) else SaturatingAdd(min, 1);
    match Clamp(AsI32(a.current), min, max)
    case None => None
    case Some(value) => Some(SliderBounds(value, min, max))
  }

  /** Attributes whose range straddles the sign bit. */
  predicate Straddles(a: AttrInfo) {
    a.min < HALF <= a.max
  }

  /** The slider panics exactly on a straddling range. Otherwise its value lies within its bounds, and
      the bounds leave room to move, save for a firmware minimum of 2^31 - 1 with no larger maximum. */
  lemma PanicsExactly(a: AttrInfo)
    ensures FromAttr(a).None? <==> Straddles(a)
    ensures FromAttr(a).Some? ==>
              var s := FromAttr(a).value;
              && s.min <= s.value <= s.max
              && (s.min < s.max <==> !(a.min == HALF - 1 && a.max <= a.min))
  {
  }

  function ClampU32(v: u32, lo: u32, hi: u32): u32
    requires lo <= hi
  {
    if v < lo then lo else if v > hi then hi else v
  }

  /** With a proper range that does not straddle, the slider stands at the firmware's value clamped into
      the firmware's range exactly when value and range are on the same side of the sign bit; so
      always when all three are below it, where the slider's numbers are the firmware's. */
  lemma ShowsTheValueExactly(a: AttrInfo)
    requires a.min < a.max && !Straddles(a)
    ensures FromAttr(a).Some?
    ensures FromAttr(a).value.value == AsI32(ClampU32(a.current, a.min, a.max)) <==> (a.current < HALF <==> a.min < HALF)
    ensures a.max < HALF && a.current < HALF ==>
              FromAttr(a) == Some(SliderBounds(ClampU32(a.current, a.min, a.max), a.min, a.max))
  {
  }

  /** The cast keeps a value modulo 2^32; with the range of an `i32` that settles it. */
  lemma CastExactly(v: u32)
    ensures (AsI32(v) - v) % 0x1_0000_0000 == 0 && -0x8000_0000 <= AsI32(v) < 0x8000_0000
    ensures AsI32(0x7FFF_FFFF) == 0x7FFF_FFFF && AsI32(0x8000_0000) == -0x8000_0000
  {
  }

  /** The ends of a slider that can be built: the cast bounds, or, for a range that is no range, one step
      up from the minimum where there is one; the value is the cast one, brought between them. */
  lemma EndsExactly(a: AttrInfo)
    requires !Straddles(a)
    ensures FromAttr(a).Some?
    ensures var s := FromAttr(a).value;
            && s.min == AsI32(a.min)
            && (a.min < a.max ==> s.max == AsI32(a.max))
            && (a.max <= a.min ==> s.max == if a.min == 0x7FFF_FFFF then s.min else s.min + 1)
            && (s.min <= AsI32(a.current) <= s.max ==> s.value == AsI32(a.current))
            && (AsI32(a.current) < s.min ==> s.value == s.min)
            && (AsI32(a.current) > s.max ==> s.value == s.max)
  {
  }

  /** An attribute without a readable `max_value` panics unless its minimum is past the sign bit. */
  lemma MissingMaximum(m: Machine, dir: string)
    requires ReadByName(m, dir).Ok? && ReadU32(m, FirmwareAttr(dir, "max_value")).Err?
    ensures FromAttr(ReadByName(m, dir).value).None? <==> ReadU32Or(m, FirmwareAttr(dir, "min_value"), 0) < HALF
  {
    hide ReadU32, ReadOpt, ListKey;
  }

  /** The slider for a short key in the daemon's list; Some(zeros) when there is no such entry. */
  function FindBounds(attrs: seq<AttrInfo>, key: string): Option<SliderBounds> {
    match FindAttr(attrs, key)
    case Some(a) => FromAttr(a)
    case None => Some(SliderBounds(0, 0, 0))
  }

  /** On a machine with plain attribute names the slider of a known limit panics exactly when its own
      directory can be read and straddles, whatever other attributes there are. */
  lemma SliderPanicsExactly(m: Machine, a: PptAttr)
    requires PlainNames(m)
    ensures FindBounds(ListAll(m), a.Key()).None? <==>
              && a.DirName() in m.attrDir && ReadByName(m, a.DirName()).Ok?
              && Straddles(ReadByName(m, a.DirName()).value)
  {
    hide ListAll, ReadByName, FindAttr, FromAttr, PlainNames;
    assert ListKey(a.DirName()) == a.Key() by { PptDirExact(a.DirName(), a); }
    if a.DirName() in m.attrDir && ReadByName(m, a.DirName()).Ok? {
      FindListed(m, a.DirName());
      PanicsExactly(ReadByName(m, a.DirName()).value);
    }
    if FindAttr(ListAll(m), a.Key()).Some? {
      var d := FoundAttr(m, a.Key());
      PlainKeys(m, d);
      PptReparses(a);
      PanicsExactly(FindAttr(ListAll(m), a.Key()).value);
    }
  }

  /** And where it does not panic it is that directory's slider, or all zeros if there is none. */
  lemma FoundSlider(m: Machine, a: PptAttr)
    requires PlainNames(m) && FindBounds(ListAll(m), a.Key()).Some?
    ensures FindBounds(ListAll(m), a.Key()) ==
            if a.DirName() in m.attrDir && ReadByName(m, a.DirName()).Ok? then FromAttr(ReadByName(m, a.DirName()).value)
            else Some(SliderBounds(0, 0, 0))
  {
    hide ListAll, ReadByName, FindAttr, FromAttr, PlainNames;
    assert ListKey(a.DirName()) == a.Key() by { PptDirExact(a.DirName(), a); }
    if a.DirName() in m.attrDir && ReadByName(m, a.DirName()).Ok? {
      FindListed(m, a.DirName());
    } else if FindAttr(ListAll(m), a.Key()).Some? {
      var d := FoundAttr(m, a.Key());
      PlainKeys(m, d);
      PptReparses(a);
    }
  }
}
