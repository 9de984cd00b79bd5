/** The three closed name sets (profiles, charge modes, power limits), their kernel
    spellings, and the forgiving parsers used once by the client and again by the daemon. */
module Names {
  import opened Wrappers
  import opened Text

  /** `into_iter().find(p)`: the first element that satisfies `p`. */
  function Find<T>(xs: seq<T>, p: T -> bool): (r: Option<T>)
    ensures r.Some? ==> exists i | 0 <= i < |xs| ::
              && xs[i] == r.value && p(xs[i])
              && forall j | 0 <= j < i :: !p(xs[j])
    ensures r.None? ==> forall i | 0 <= i < |xs| :: !p(xs[i])
  {
    if xs == [] then None
    else if p(xs[0]) then
      assert xs[0] == xs[0];
      Some(xs[0])
    else
      var r := Find(xs[1..], p);
      assert r.Some? ==> exists i | 0 <= i < |xs| ::
          && xs[i] == r.value && p(xs[i]) && forall j | 0 <= j < i :: !p(xs[j])
      by {
        if r.Some? {
          var k :| 0 <= k < |xs| - 1 && xs[1..][k] == r.value && p(xs[1..][k])
                   && forall j | 0 <= j < k :: !p(xs[1..][j]);
          assert xs[k + 1] == r.value && p(xs[k + 1]);
          assert forall j | 0 < j < k + 1 :: !p(xs[j]) by {
            forall j | 0 < j < k + 1 ensures !p(xs[j]) { assert !p(xs[1..][j - 1]); }
          }
        }
      }
      r
  }

  // ── power profiles ────────────────────────────────────────────────────────

  datatype PowerProfile = Quiet | Balanced | Performance | Extreme | Custom
  {
    function AsSysfs(): string {
      match this
      case Quiet => "low-power"
      case Balanced => "balanced"
      case Performance => "performance"
      case Extreme => "max-power"
      case Custom => "custom"
    }

    function Label(): string {
      match this
      case Quiet => "Quiet"
      case Balanced => "Balanced"
      case Performance => "Performance"
      case Extreme => "Extreme"
      case Custom => "Custom"
    }

    /** The label as a user may type it. */
    function Alias(): string {
      match this
      case Quiet => "quiet"
      case Balanced => "balanced"
      case Performance => "performance"
      case Extreme => "extreme"
      case Custom => "custom"
    }
  }

  const PROFILES: seq<PowerProfile> := [Quiet, Balanced, Performance, Extreme, Custom]

  function ProfileFromSysfs(s: string): Option<PowerProfile> {
    Find(PROFILES, (p: PowerProfile) => p.AsSysfs() == s)
  }

  function ProfileFromUser(s: string): Option<PowerProfile> {
    var n := Lower(Trim(s));
    Find(PROFILES, (p: PowerProfile) => p.AsSysfs() == n || Lower(p.Label()) == n)
  }

  lemma ProfilesAreAll(p: PowerProfile)
    ensures p in PROFILES
  {
    assert PROFILES[0] == Quiet && PROFILES[1] == Balanced && PROFILES[2] == Performance
        && PROFILES[3] == Extreme && PROFILES[4] == Custom;
  }

  lemma ProfileLabelFolds(p: PowerProfile)
    ensures Lower(p.Label()) == p.Alias()
  {
    LowerIs(p.Label(), p.Alias());
  }

  /** No spelling belongs to two profiles. */
  lemma ProfileSpellingsDisjoint(p: PowerProfile, q: PowerProfile, n: string)
    requires n == p.AsSysfs() || n == p.Alias()
    requires n == q.AsSysfs() || n == q.Alias()
    ensures p == q
  {
    assert |n| > 2;
    assert n[0] == 'm' || n[0] == 'q' || n[0] == 'l' || n[0] == 'b' || n[0] == 'p' || n[0] == 'e' || n[0] == 'c';
  }

  /** The kernel's string names exactly one profile, case included. */
  lemma ProfileSysfsExact(s: string, p: PowerProfile)
    ensures ProfileFromSysfs(s) == Some(p) <==> s == p.AsSysfs()
  {
    ProfilesAreAll(p);
    if s == p.AsSysfs() {
      var r := ProfileFromSysfs(s);
      if r.Some? { ProfileSpellingsDisjoint(p, r.value, s); }
    }
  }

  /** A user's string names `p` exactly when, trimmed and folded, it is the kernel
      string or the label; so the first match is the only match. */
  lemma ProfileUserExact(s: string, p: PowerProfile)
    ensures ProfileFromUser(s) == Some(p) <==> Lower(Trim(s)) in {p.AsSysfs(), p.Alias()}
  {
    var n := Lower(Trim(s));
    var r := ProfileFromUser(s);
    ProfilesAreAll(p);
    ProfileLabelFolds(p);
    if r.Some? {
      ProfileLabelFolds(r.value);
      if n in {p.AsSysfs(), p.Alias()} { ProfileSpellingsDisjoint(p, r.value, n); }
    }
  }

  lemma ProfileSysfsPlain(p: PowerProfile)
    ensures IsWord(p.AsSysfs()) && Lower(p.AsSysfs()) == p.AsSysfs()
    ensures Trim(p.AsSysfs()) == p.AsSysfs() && Trim(p.AsSysfs() + "\n") == p.AsSysfs()
  {
    hide IsWord, Lower, Trim;
    PlainName(p.AsSysfs());
  }

  /** Parsing what a parsed name is sent as gives the same profile. */
  lemma ProfileReparses(p: PowerProfile)
    ensures ProfileFromUser(p.AsSysfs()) == Some(p)
    ensures ProfileFromSysfs(p.AsSysfs()) == Some(p)
    ensures ProfileFromSysfs(Trim(p.AsSysfs() + "\n")) == Some(p)
  {
    ProfileSysfsPlain(p);
    hide Lower, Trim, ProfileFromUser, ProfileFromSysfs;
    ProfileUserExact(p.AsSysfs(), p);
    ProfileSysfsExact(p.AsSysfs(), p);
  }

  // ── charge modes ──────────────────────────────────────────────────────────

  datatype ChargeMode = Standard | Fast | LongLife
  {
    function AsSysfs(): string {
      match this
      case Standard => "Standard"
      case Fast => "Fast"
      case LongLife => "Long_Life"
    }

    function Key(): string {
      match this
      case Standard => "standard"
      case Fast => "fast"
      case LongLife => "long-life"
    }

    /** The key without its separator. */
    function Compact(): string {
      match this
      case Standard => "standard"
      case Fast => "fast"
      case LongLife => "longlife"
    }

    /** The kernel's spelling in lower case. */
    function Folded(): string {
      match this
      case Standard => "standard"
      case Fast => "fast"
      case LongLife => "long_life"
    }
  }

  const MODES: seq<ChargeMode> := [Standard, Fast, LongLife]

  /** A kernel token, compared without regard to ASCII case. */
  function ChargeFromSysfs(s: string): Option<ChargeMode> {
    var t := Trim(s);
    Find(MODES, (m: ChargeMode) => Lower(m.AsSysfs()) == Lower(t))
  }

  function ChargeFold(s: string): string {
    Replace(Lower(Trim(s)), {'_', ' '}, '-')
  }

  function ChargeFromUser(s: string): Option<ChargeMode> {
    var n := ChargeFold(s);
    Find(MODES, (m: ChargeMode) =>
           || m.Key() == n
           || Replace(Lower(m.AsSysfs()), {'_'}, '-') == n
           || Remove(m.Key(), '-') == n)
  }

  lemma ModesAreAll(m: ChargeMode)
    ensures m in MODES
  {
    assert MODES[0] == Standard && MODES[1] == Fast && MODES[2] == LongLife;
  }

  lemma {:induction false} RemoveAbsent(s: string, c: char)
    requires c !in s
    ensures Remove(s, c) == s
  {
    if s != "" { RemoveAbsent(s[1..], c); }
  }

  lemma {:induction false} RemoveOnce(s: string, c: char, t: string)
    requires c !in s && c !in t
    ensures Remove(s + [c] + t, c) == s + t
  {
    var whole := s + [c] + t;
    if s == "" {
      assert whole[1..] == t;
      RemoveAbsent(t, c);
    } else {
      assert whole[1..] == s[1..] + [c] + t;
      RemoveOnce(s[1..], c, t);
    }
  }

  lemma ChargeKeyCompact(m: ChargeMode)
    ensures Remove(m.Key(), '-') == m.Compact()
  {
    if m == LongLife {
      assert m.Key() == "long" + ['-'] + "life";
      RemoveOnce("long", '-', "life");
    } else {
      RemoveAbsent(m.Key(), '-');
    }
  }

  lemma ReplaceIs(s: string, cs: set<char>, to: char, t: string)
    requires |s| == |t| && forall i | 0 <= i < |s| :: t[i] == if s[i] in cs then to else s[i]
    ensures Replace(s, cs, to) == t
  {
  }

  lemma ChargeSpellingsFold(m: ChargeMode)
    ensures Lower(m.AsSysfs()) == m.Folded()
    ensures Replace(Lower(m.AsSysfs()), {'_'}, '-') == m.Key()
    ensures Remove(m.Key(), '-') == m.Compact()
  {
    LowerIs(m.AsSysfs(), m.Folded());
    ReplaceIs(m.Folded(), {'_'}, '-', m.Key());
    ChargeKeyCompact(m);
  }

  /** A kernel token names a mode exactly when it is its spelling in any case. */
  lemma ChargeSysfsExact(s: string, m: ChargeMode)
    ensures ChargeFromSysfs(s) == Some(m) <==> Lower(Trim(s)) == m.Folded()
  {
    ModesAreAll(m);
    ChargeSpellingsFold(m);
    var r := ChargeFromSysfs(s);
    if r.Some? { ChargeSpellingsFold(r.value); }
  }

  /** A user's string names `m` exactly when, folded, it is one of the spellings of `m`. */
  lemma ChargeUserExact(s: string, m: ChargeMode)
    ensures ChargeFromUser(s) == Some(m) <==> ChargeFold(s) in {m.Key(), m.Compact()}
  {
    ModesAreAll(m);
    ChargeSpellingsFold(m);
    var n := ChargeFold(s);
    var r := ChargeFromUser(s);
    if r.Some? {
      ChargeSpellingsFold(r.value);
      assert n in {r.value.Key(), r.value.Compact()};
    }
  }

  lemma ChargeSysfsWord(m: ChargeMode)
    ensures IsWord(m.AsSysfs())
  {
  }

  lemma ChargeFoldSysfs(m: ChargeMode)
    ensures ChargeFold(m.AsSysfs()) == m.Key()
    ensures Lower(Trim(m.AsSysfs())) == m.Folded()
  {
    hide IsWord, Trim, Lower, Replace;
    ChargeSysfsWord(m);
    TrimWord(m.AsSysfs());
    LowerIs(m.AsSysfs(), m.Folded());
    ReplaceIs(m.Folded(), {'_', ' '}, '-', m.Key());
  }

  lemma ChargeReparses(m: ChargeMode)
    ensures ChargeFromUser(m.AsSysfs()) == Some(m)
    ensures ChargeFromSysfs(m.AsSysfs()) == Some(m)
  {
    hide Lower, Trim, ChargeFold, ChargeFromUser, ChargeFromSysfs;
    ChargeFoldSysfs(m);
    ChargeSysfsExact(m.AsSysfs(), m);
    ChargeUserExact(m.AsSysfs(), m);
  }

  // ── power limits ──────────────────────────────────────────────────────────

  datatype PptAttr = Spl | Sppt | Fppt
  {
    function DirName(): string {
      match this
      case Spl => "ppt_pl1_spl"
      case Sppt => "ppt_pl2_sppt"
      case Fppt => "ppt_pl3_fppt"
    }

    function Key(): string {
      match this
      case Spl => "spl"
      case Sppt => "sppt"
      case Fppt => "fppt"
    }
  }

  const LIMITS: seq<PptAttr> := [Spl, Sppt, Fppt]

  function PptFromKey(s: string): Option<PptAttr> {
    var n := Lower(Trim(s));
    Find(LIMITS, (a: PptAttr) => a.Key() == n || a.DirName() == n)
  }

  /** The attribute a directory belongs to, by its exact name. */
  function PptFromDir(dir: string): (r: Option<PptAttr>) {
    Find(LIMITS, (a: PptAttr) => a.DirName() == dir)
  }

  /** The name a limit is recorded and listed under. */
  function RecordKey(attr: string): string {
    match PptFromKey(attr) case Some(a) => a.Key() case None => attr
  }

  /** The directory a limit is written to. */
  function WriteDir(attr: string): string {
    match PptFromKey(attr) case Some(a) => a.DirName() case None => attr
  }

  lemma LimitsAreAll(a: PptAttr)
    ensures a in LIMITS
  {
    assert LIMITS[0] == Spl && LIMITS[1] == Sppt && LIMITS[2] == Fppt;
  }

  lemma PptSpellingsDisjoint(a: PptAttr, b: PptAttr, n: string)
    requires n == a.Key() || n == a.DirName()
    requires n == b.Key() || n == b.DirName()
    ensures a == b
  {
    if |n| > 4 { assert n[6] == '1' || n[6] == '2' || n[6] == '3'; } else { assert n[0] == 's' || n[0] == 'f'; }
  }

  lemma PptKeyExact(s: string, a: PptAttr)
    ensures PptFromKey(s) == Some(a) <==> Lower(Trim(s)) in {a.Key(), a.DirName()}
  {
    LimitsAreAll(a);
    var n := Lower(Trim(s));
    var r := PptFromKey(s);
    if r.Some? && n in {a.Key(), a.DirName()} { PptSpellingsDisjoint(a, r.value, n); }
  }

  lemma PptDirExact(dir: string, a: PptAttr)
    ensures PptFromDir(dir) == Some(a) <==> dir == a.DirName()
  {
    LimitsAreAll(a);
    var r := PptFromDir(dir);
    if r.Some? && dir == a.DirName() { PptSpellingsDisjoint(a, r.value, dir); }
  }

  lemma PptNamesPlain(a: PptAttr)
    ensures Lower(Trim(a.Key())) == a.Key()
    ensures Lower(Trim(a.DirName())) == a.DirName()
  {
    hide IsWord, Lower, Trim;
    PlainName(a.Key());
    PlainName(a.DirName());
  }

  lemma PptReparses(a: PptAttr)
    ensures PptFromKey(a.Key()) == Some(a)
    ensures PptFromKey(a.DirName()) == Some(a)
  {
    PptNamesPlain(a);
    hide Lower, Trim, PptFromKey;
    PptKeyExact(a.Key(), a);
    PptKeyExact(a.DirName(), a);
  }

  /** A key the daemon records is its own normal form, or a name that is no limit's. */
  predicate Canonical(key: string) {
    RecordKey(key) == key
  }

  // ── one parse or two ──────────────────────────────────────────────────────

  /** What the daemon makes of a profile the client has already parsed and re-spelt. */
  function ProfileTwice(s: string): Option<PowerProfile> {
    match ProfileFromUser(s) case Some(p) => ProfileFromUser(p.AsSysfs()) case None => None
  }

  function ChargeTwice(s: string): Option<ChargeMode> {
    match ChargeFromUser(s) case Some(m) => ChargeFromUser(m.AsSysfs()) case None => None
  }

  /** Client parsing followed by daemon parsing is one parse, for every string; limit
      names keep their recorded key and their directory, and recorded keys are canonical. */
  lemma DoubleNormalisation(s: string)
    ensures ProfileTwice(s) == ProfileFromUser(s)
    ensures ChargeTwice(s) == ChargeFromUser(s)
    ensures PptFromKey(RecordKey(s)) == PptFromKey(s)
    ensures RecordKey(RecordKey(s)) == RecordKey(s) && Canonical(RecordKey(s))
    ensures WriteDir(RecordKey(s)) == WriteDir(s)
  {
    hide ProfileFromUser, ChargeFromUser, PptFromKey;
    match ProfileFromUser(s) { case Some(p) => ProfileReparses(p); case None => }
    match ChargeFromUser(s) { case Some(m) => ChargeReparses(m); case None => }
    match PptFromKey(s) { case Some(a) => PptReparses(a); case None => }
  }

  /** Two canonical keys that name the same limit are the same key. */
  lemma CanonicalDistinct(k: string, l: string)
    requires Canonical(k) && Canonical(l)
    requires PptFromKey(k).Some? && PptFromKey(k) == PptFromKey(l)
    ensures k == l
  {
  }

  /** Surrounding white space and the case of letters never change what a name means. */
  lemma PaddingAndCase(before: string, s: string, t: string, after: string)
    requires AllSpace(before) && AllSpace(after) && SpelledLike(s, t)
    ensures ProfileFromUser(before + t + after) == ProfileFromUser(s)
    ensures ChargeFromUser(before + t + after) == ChargeFromUser(s)
    ensures ChargeFromSysfs(before + t + after) == ChargeFromSysfs(s)
    ensures PptFromKey(before + t + after) == PptFromKey(s)
  {
    TrimPadded(before, t, after);
    LowerExactly(s, t);
    LowerTrim(s);
    LowerTrim(t);
    hide Lower, Trim;
  }

  lemma LabelsFolded(p: PowerProfile)
    ensures Lower(p.AsSysfs()) == p.AsSysfs() && Lower(p.Alias()) == p.Alias()
  {
    hide IsWord, Lower, Trim;
    PlainName(p.AsSysfs());
    PlainName(p.Alias());
  }

  lemma KeysFolded(c: ChargeMode, a: PptAttr)
    ensures Lower(c.AsSysfs()) == c.Folded()
    ensures Lower(a.Key()) == a.Key() && Lower(a.DirName()) == a.DirName()
  {
    hide IsWord, Lower, Trim;
    LowerIs(c.AsSysfs(), c.Folded());
    PlainName(a.Key());
    PlainName(a.DirName());
  }

  /** What the forgiving parsers accept, in letters: the spellings of each name, and no others. */
  lemma AcceptedSpellings(s: string, p: PowerProfile, c: ChargeMode, a: PptAttr)
    ensures ProfileFromUser(s) == Some(p) <==> SpelledLike(Trim(s), p.AsSysfs()) || SpelledLike(Trim(s), p.Alias())
    ensures ChargeFromSysfs(s) == Some(c) <==> SpelledLike(Trim(s), c.AsSysfs())
    ensures PptFromKey(s) == Some(a) <==> SpelledLike(Trim(s), a.Key()) || SpelledLike(Trim(s), a.DirName())
  {
    hide Lower, Trim, SpelledLike, ProfileFromUser, ChargeFromSysfs, PptFromKey;
    ProfileUserExact(s, p);
    ChargeSysfsExact(s, c);
    PptKeyExact(s, a);
    LabelsFolded(p);
    KeysFolded(c, a);
    LowerExactly(Trim(s), p.AsSysfs());
    LowerExactly(Trim(s), p.Alias());
    LowerExactly(Trim(s), c.AsSysfs());
    LowerExactly(Trim(s), a.Key());
    LowerExactly(Trim(s), a.DirName());
  }

  /** In a charge mode's name, `-`, `_` and a space are interchangeable inside the name. */
  lemma SeparatorsInterchange(s: string, t: string)
    requires |s| == |t| && Trim(s) == s && Trim(t) == t
    requires forall i | 0 <= i < |s| ::
               s[i] == t[i] || (s[i] in {'-', '_', ' '} && t[i] in {'-', '_', ' '})
    ensures ChargeFromUser(s) == ChargeFromUser(t)
  {
    assert forall i | 0 <= i < |s| :: LowerChar(s[i]) == s[i] || s[i] !in {'-', '_', ' '};
    assert ChargeFold(s) == ChargeFold(t);
  }

  lemma AliasPlain(p: PowerProfile)
    ensures Lower(Trim(p.Alias())) == p.Alias()
  {
    hide IsWord, Lower, Trim;
    PlainName(p.Alias());
  }

  lemma ProfileSpelt(p: PowerProfile)
    ensures ProfileFromUser(p.AsSysfs()) == Some(p) && ProfileFromUser(p.Alias()) == Some(p)
  {
    hide *;
    ProfileReparses(p);
    AliasPlain(p);
    ProfileUserExact(p.Alias(), p);
  }

  lemma FoldPlain(s: string)
    requires s != "" && forall i | 0 <= i < |s| :: IsPlainChar(s[i]) && s[i] != '_'
    ensures ChargeFold(s) == s
  {
    hide IsWord, Lower, Trim;
    PlainName(s);
    ReplaceIs(s, {'_', ' '}, '-', s);
  }

  lemma ChargeSpelt(c: ChargeMode)
    ensures ChargeFromUser(c.Key()) == Some(c) && ChargeFromUser(c.Compact()) == Some(c)
  {
    hide ChargeFold, ChargeFromUser;
    FoldPlain(c.Key());
    FoldPlain(c.Compact());
    ChargeUserExact(c.Key(), c);
    ChargeUserExact(c.Compact(), c);
  }

  /** The spellings the kernel, the command line and the labels use, in so many words. */
  lemma DocumentedProfiles()
    ensures ProfileFromUser("low-power") == Some(Quiet) && ProfileFromUser("quiet") == Some(Quiet)
    ensures ProfileFromUser("balanced") == Some(Balanced) && ProfileFromUser("performance") == Some(Performance)
    ensures ProfileFromUser("max-power") == Some(Extreme) && ProfileFromUser("extreme") == Some(Extreme)
    ensures ProfileFromUser("custom") == Some(Custom)
  {
    hide ProfileFromUser;
    ProfileSpelt(Quiet);
    ProfileSpelt(Balanced);
    ProfileSpelt(Performance);
    ProfileSpelt(Extreme);
    ProfileSpelt(Custom);
  }

  lemma DocumentedModes()
    ensures ChargeFromSysfs("Standard") == Some(Standard) && ChargeFromSysfs("Fast") == Some(Fast)
    ensures ChargeFromSysfs("Long_Life") == Some(LongLife)
    ensures ChargeFromUser("standard") == Some(Standard) && ChargeFromUser("fast") == Some(Fast)
    ensures ChargeFromUser("long-life") == Some(LongLife) && ChargeFromUser("longlife") == Some(LongLife)
  {
    hide ChargeFromSysfs, ChargeFromUser;
    forall c: ChargeMode ensures ChargeFromSysfs(c.AsSysfs()) == Some(c) { ChargeReparses(c); }
    ChargeSpelt(Standard);
    ChargeSpelt(Fast);
    ChargeSpelt(LongLife);
  }

  lemma DocumentedLimits()
    ensures PptFromKey("spl") == Some(Spl) && PptFromKey("ppt_pl1_spl") == Some(Spl)
    ensures PptFromKey("sppt") == Some(Sppt) && PptFromKey("ppt_pl2_sppt") == Some(Sppt)
    ensures PptFromKey("fppt") == Some(Fppt) && PptFromKey("ppt_pl3_fppt") == Some(Fppt)
  {
    hide PptFromKey;
    PptReparses(Spl);
    PptReparses(Sppt);
    PptReparses(Fppt);
  }
}
