/** Firmware attributes: reading one, and listing all of them. */
module Attrs {
  import opened Wrappers
  import opened Text
  import opened Listing
  import opened Names
  import opened Sysfs

  datatype AttrInfo = AttrInfo(
    key: string, displayName: string, current: u32, default: u32, min: u32, max: u32, step: u32)
  {
    predicate InRange(watts: u32) {
      min <= watts <= max
    }
  }

  function CurrentValue(dir: string): Path {
    FirmwareAttr(dir, "current_value")
  }

  /** The key a directory is listed under: the short key for a known limit's directory. */
  function ListKey(dir: string): string {
    match PptFromDir(dir) case Some(a) => a.Key() case None => dir
  }

  function ReadByName(m: Machine, dir: string): Result<AttrInfo, HwError> {
    if CurrentValue(dir) !in m.files then Err(NotSupported)
    else
      match ReadU32(m, CurrentValue(dir))
      case Err(e) => Err(e)
      case Ok(current) => Ok(AttrInfo(
        ListKey(dir),
        match ReadOpt(m, FirmwareAttr(dir, "display_name")) case Some(s) => s case None => dir,
        current,
        ReadU32Or(m, FirmwareAttr(dir, "default_value"), 0),
        ReadU32Or(m, FirmwareAttr(dir, "min_value"), 0),
        ReadU32Or(m, FirmwareAttr(dir, "max_value"), U32_MAX),
        ReadU32Or(m, FirmwareAttr(dir, "scalar_increment"), 1)))
  }

  /** The directories among `names` that can be read, in order. */
  function Readable(m: Machine, names: seq<string>): (dirs: seq<string>)
    ensures forall d | d in dirs :: d in names && ReadByName(m, d).Ok?
    ensures forall d | d in names && ReadByName(m, d).Ok? :: d in dirs
  {
    if names == [] then []
    else
      var rest := Readable(m, names[1..]);
      if ReadByName(m, names[0]).Ok? then [names[0]] + rest else rest
  }

  function ListedDirs(m: Machine): seq<string> {
    Readable(m, Sort(m.attrDir))
  }

  /** Every attribute that can be read, sorted by directory name. */
  function ListAll(m: Machine): (all: seq<AttrInfo>)
    ensures |all| == |ListedDirs(m)|
    ensures forall i | 0 <= i < |all| :: ReadByName(m, ListedDirs(m)[i]) == Ok(all[i])
  {
    var dirs := ListedDirs(m);
    assert forall i | 0 <= i < |dirs| :: ReadByName(m, dirs[i]).Ok? by {
      forall i | 0 <= i < |dirs| ensures ReadByName(m, dirs[i]).Ok? { assert dirs[i] in dirs; }
    }
    seq(|dirs|, i requires 0 <= i < |dirs| && ReadByName(m, dirs[i]).Ok? => ReadByName(m, dirs[i]).value)
  }

  // ── what a directory's files come to ──────────────────────────────────────

  /** `leaf` is absent, or holds this number as the kernel prints it. */
  predicate Prints(m: Machine, dir: string, leaf: string, v: Option<nat>) {
    match v
    case None => FirmwareAttr(dir, leaf) !in m.files
    case Some(n) => FirmwareAttr(dir, leaf) in m.files && m.files[FirmwareAttr(dir, leaf)] == Print(n) + "\n"
  }

  /** A printed number that is there and fits, else the default. */
  function Fitting(v: Option<nat>, default: u32): u32 {
    if v.Some? && v.value <= U32_MAX then v.value else default
  }

  lemma PrintedReads(m: Machine, dir: string, leaf: string, v: Option<nat>, default: u32)
    requires Prints(m, dir, leaf, v)
    ensures ReadU32Or(m, FirmwareAttr(dir, leaf), default) == Fitting(v, default)
    ensures v.Some? && v.value > U32_MAX ==> ReadU32(m, FirmwareAttr(dir, leaf)) == Err(Parse)
    ensures v.Some? && v.value <= U32_MAX ==> ReadU32(m, FirmwareAttr(dir, leaf)) == Ok(v.value)
  {
    if v.Some? {
      ParsePrint(v.value);
      TrimWord(Print(v.value));
    }
    hide Trim, ParseU32, Print;
  }

  /** A directory the kernel has filled with decimal numbers reads back as those numbers, under
      its display name if it has one. Without a
      current value there is no attribute, one past 32 bits fails it, and a bound that is absent
      or past 32 bits counts as the widest. */
  lemma DirectoryReadsBack(m: Machine, dir: string, current: Option<nat>, default: Option<nat>,
                           min: Option<nat>, max: Option<nat>, step: Option<nat>)
    requires Prints(m, dir, "current_value", current) && Prints(m, dir, "default_value", default)
    requires Prints(m, dir, "min_value", min) && Prints(m, dir, "max_value", max)
    requires Prints(m, dir, "scalar_increment", step)
    ensures var r := ReadByName(m, dir);
            match current
            case None => r == Err(NotSupported)
            case Some(n) =>
              if n > U32_MAX then r == Err(Parse)
              else && r.Ok? && r.value.key == ListKey(dir) && r.value.current == n
                   && r.value.min == Fitting(min, 0) && r.value.max == Fitting(max, U32_MAX)
                   && r.value.default == Fitting(default, 0) && r.value.step == Fitting(step, 1)
                   && r.value.displayName == (if FirmwareAttr(dir, "display_name") in m.files
                                              then Trim(m.files[FirmwareAttr(dir, "display_name")]) else dir)
  {
    hide ReadU32, ReadU32Or, Trim, ListKey, Print;
    PrintedReads(m, dir, "current_value", current, 0);
    PrintedReads(m, dir, "default_value", default, 0);
    PrintedReads(m, dir, "min_value", min, 0);
    PrintedReads(m, dir, "max_value", max, U32_MAX);
    PrintedReads(m, dir, "scalar_increment", step, 1);
  }

  lemma {:induction false} ReadableSorted(m: Machine, names: seq<string>)
    requires Sorted(names)
    ensures Sorted(Readable(m, names))
  {
    if names != [] {
      var rest := Readable(m, names[1..]);
      ReadableSorted(m, names[1..]);
      forall j | 0 <= j < |rest| ensures Leq(names[0], rest[j]) {
        assert rest[j] in rest;
        var i :| 0 <= i < |names[1..]| && names[1..][i] == rest[j];
        assert Leq(names[0], names[i + 1]);
      }
    }
  }

  /** The listing holds the readable directories, all of them and sorted, whatever order the kernel
      returns them in. */
  lemma ListingExact(m: Machine, d: string)
    ensures Sorted(ListedDirs(m))
    ensures d in ListedDirs(m) <==> d in m.attrDir && ReadByName(m, d).Ok?
  {
    SortSorts(m.attrDir);
    ReadableSorted(m, Sort(m.attrDir));
    SortMembers(m.attrDir, d);
    hide ReadByName;
  }

  lemma {:induction false} ReadableIgnoresListing(m: Machine, m': Machine, names: seq<string>)
    requires m' == m.(attrDir := m'.attrDir)
    ensures Readable(m', names) == Readable(m, names)
  {
    if names != [] { ReadableIgnoresListing(m, m', names[1..]); }
  }

  lemma ListingIgnoresOrder(m: Machine, m': Machine)
    requires m' == m.(attrDir := m'.attrDir) && multiset(m'.attrDir) == multiset(m.attrDir)
    ensures ListAll(m') == ListAll(m)
  {
    hide ReadByName, Sort, Readable;
    SortIgnoresOrder(m.attrDir, m'.attrDir);
    ReadableIgnoresListing(m, m', Sort(m.attrDir));
    var all, all' := ListAll(m), ListAll(m');
    forall i | 0 <= i < |all| ensures all'[i] == all[i] {
      SameAttribute(m, m', ListedDirs(m)[i]);
    }
    assert all' == all;
  }

  lemma SameAttribute(m: Machine, m': Machine, dir: string)
    requires m' == m.(attrDir := m'.attrDir)
    ensures ReadByName(m', dir) == ReadByName(m, dir)
  {
    hide Trim, ParseU32, ListKey;
  }

  function FindAttr(all: seq<AttrInfo>, key: string): Option<AttrInfo> {
    Find(all, (a: AttrInfo) => a.key == key)
  }

  lemma ReadKey(m: Machine, dir: string)
    requires ReadByName(m, dir).Ok?
    ensures ReadByName(m, dir).value.key == ListKey(dir)
  {
  }

  /** No attribute directory carries a name that stands for another directory. */
  ghost predicate PlainNames(m: Machine) {
    forall d | d in m.attrDir :: WriteDir(d) == d
  }

  /** A name is plain unless, but for letter case and white space, it is a short key, or a known directory
      that it is not spelt exactly like. */
  lemma PlainNamesExactly(m: Machine)
    ensures PlainNames(m) <==> forall d, a: PptAttr | d in m.attrDir ::
              !SpelledLike(Trim(d), a.Key()) && (SpelledLike(Trim(d), a.DirName()) ==> d == a.DirName())
  {
    forall d ensures WriteDir(d) == d <==> forall a: PptAttr ::
              !SpelledLike(Trim(d), a.Key()) && (SpelledLike(Trim(d), a.DirName()) ==> d == a.DirName())
    {
      PlainNameExactly(d);
    }
    hide WriteDir, SpelledLike, Trim;
  }

  lemma PlainNameExactly(d: string)
    ensures WriteDir(d) == d <==> forall a: PptAttr ::
              !SpelledLike(Trim(d), a.Key()) && (SpelledLike(Trim(d), a.DirName()) ==> d == a.DirName())
  {
    hide SpelledLike, Trim, PptFromKey;
    forall a: PptAttr
      ensures PptFromKey(d) == Some(a) <==> SpelledLike(Trim(d), a.Key()) || SpelledLike(Trim(d), a.DirName())
      ensures SpelledLike(Trim(d), a.Key()) ==> d != a.DirName()
    {
      AcceptedSpellings(d, Quiet, Standard, a);
      if d == a.DirName() { DirectoryIsNoKey(a); }
    }
  }

  lemma DirectoryIsNoKey(a: PptAttr)
    ensures !SpelledLike(Trim(a.DirName()), a.Key())
  {
    hide IsWord, Lower, Trim;
    PlainName(a.DirName());
    assert |a.DirName()| != |a.Key()|;
  }

  /** Plain names make listing keys unique, and writing to a key is writing to its directory. */
  lemma PlainKeys(m: Machine, d: string)
    requires PlainNames(m) && d in m.attrDir
    ensures WriteDir(ListKey(d)) == d && RecordKey(ListKey(d)) == ListKey(d)
    ensures RecordKey(d) == ListKey(d)
  {
    match PptFromKey(d) {
      case Some(a) =>
        PptDirExact(d, a);
        PptReparses(a);
      case None =>
        match PptFromDir(d) {
          case Some(a) =>
            PptDirExact(d, a);
            PptReparses(a);
          case None =>
        }
    }
  }

  /** The entry found under a key belongs to a directory listed under it. */
  lemma FoundAttr(m: Machine, key: string) returns (d: string)
    requires FindAttr(ListAll(m), key).Some?
    ensures d in m.attrDir && ListKey(d) == key
    ensures ReadByName(m, d) == Ok(FindAttr(ListAll(m), key).value)
  {
    var all, dirs := ListAll(m), ListedDirs(m);
    var info := FindAttr(all, key).value;
    var i :| 0 <= i < |all| && all[i] == info && info.key == key;
    d := dirs[i];
    assert d in dirs && d in Sort(m.attrDir);
    SortMembers(m.attrDir, d);
    ReadKey(m, d);
  }

  /** With plain names, the entry under a directory's key is that directory's. */
  lemma FindListed(m: Machine, d: string)
    requires PlainNames(m) && d in m.attrDir && ReadByName(m, d).Ok?
    ensures FindAttr(ListAll(m), ListKey(d)) == Some(ReadByName(m, d).value)
  {
    var all, dirs := ListAll(m), ListedDirs(m);
    SortMembers(m.attrDir, d);
    assert d in dirs;
    var i :| 0 <= i < |dirs| && dirs[i] == d;
    ReadKey(m, d);
    assert all[i].key == ListKey(d);
    var e := FoundAttr(m, ListKey(d));
    PlainKeys(m, d);
    PlainKeys(m, e);
  }
}
