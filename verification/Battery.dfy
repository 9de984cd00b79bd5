/** The bracketed list in `charge_types`, e.g. `Fast Standard [Long_Life]`. */
module Battery {
  import opened Wrappers
  import opened Text
  import opened Names
  import opened Sysfs

  datatype ChargeList = ChargeList(available: seq<ChargeMode>, active: Option<ChargeMode>)

  predicate Bracketed(t: string) {
    |t| >= 2 && t[0] == '[' && t[|t| - 1] == ']'
  }

  /** The token without its pair of brackets, if it has one. */
  function Inner(t: string): string {
    if Bracketed(t) then t[1..|t| - 1] else t
  }

  function ParseTokens(ts: seq<string>): Result<ChargeList, HwError> {
    if ts == [] then Ok(ChargeList([], None))
    else
      var t := ts[|ts| - 1];
      match ParseTokens(ts[..|ts| - 1])
      case Err(e) => Err(e)
      case Ok(l) =>
        match ChargeFromSysfs(Inner(t))
        case None => Err(Parse)
        case Some(m) => Ok(ChargeList(l.available + [m], if Bracketed(t) then Some(m) else l.active))
  }

  function ChargeTypesOf(raw: string): Result<ChargeList, HwError> {
    match ParseTokens(SplitSpace(raw))
    case Err(e) => Err(e)
    case Ok(l) => if l.available == [] then Err(Parse) else Ok(l)
  }

  lemma {:induction false} ParsePrefix(ts: seq<string>, k: nat)
    requires k <= |ts| && ParseTokens(ts).Ok?
    ensures ParseTokens(ts[..k]).Ok?
  {
    if k == |ts| {
      assert ts[..k] == ts;
    } else {
      assert ts[..|ts| - 1][..k] == ts[..k];
      ParsePrefix(ts[..|ts| - 1], k);
    }
  }

  /** The parser's loop: it stops at the first unknown token. */
  method ParseChargeTypes(raw: string) returns (r: Result<ChargeList, HwError>)
    ensures r == ChargeTypesOf(raw)
  {
    hide ChargeFromSysfs, Bracketed, Inner, SplitSpace;
    var tokens := SplitSpace(raw);
    var available: seq<ChargeMode> := [];
    var active: Option<ChargeMode> := None;
    var i := 0;
    while i < |tokens|
      invariant 0 <= i <= |tokens|
      invariant ParseTokens(tokens[..i]) == Ok(ChargeList(available, active))
    {
      var token := tokens[i];
      assert tokens[..i + 1][..i] == tokens[..i];
      match ChargeFromSysfs(Inner(token)) {
        case None =>
          assert ParseTokens(tokens[..i + 1]) == Err(Parse);
          if ParseTokens(tokens).Ok? { ParsePrefix(tokens, i + 1); }
          ParseFailure(tokens);
          return Err(Parse);
        case Some(mode) =>
          if Bracketed(token) {
            active := Some(mode);
          }
          available := available + [mode];
      }
      i := i + 1;
    }
    assert tokens[..i] == tokens;
    if available == [] {
      return Err(Parse);
    }
    return Ok(ChargeList(available, active));
  }

  lemma {:induction false} ParseFailure(ts: seq<string>)
    ensures ParseTokens(ts).Err? ==> ParseTokens(ts) == Err(Parse)
  {
    if ts != [] { ParseFailure(ts[..|ts| - 1]); }
  }

  // ── what the parser accepts, said without it ──────────────────────────────

  /** The token, freed of its brackets, is the kernel's name of `m` in some letter case. */
  predicate TokenNames(t: string, m: ChargeMode) {
    Lower(Inner(t)) == m.Folded()
  }

  lemma TokenNamesExact(t: string, m: ChargeMode)
    requires IsWord(t)
    ensures ChargeFromSysfs(Inner(t)) == Some(m) <==> TokenNames(t, m)
  {
    if Inner(t) != "" { TrimWord(Inner(t)); }
    ChargeSysfsExact(Inner(t), m);
  }

  /** Index of the last bracketed token. */
  function LastBracketed(ts: seq<string>): (r: Option<nat>)
    ensures r.Some? ==> r.value < |ts| && Bracketed(ts[r.value])
    ensures r.Some? ==> forall j | r.value < j < |ts| :: !Bracketed(ts[j])
    ensures r.None? ==> forall j | 0 <= j < |ts| :: !Bracketed(ts[j])
  {
    if ts == [] then None
    else if Bracketed(ts[|ts| - 1]) then Some(|ts| - 1)
    else LastBracketed(ts[..|ts| - 1])
  }

  /** One mode per token, in order, and the last bracketed token's mode is the active one. */
  ghost predicate Describes(ts: seq<string>, l: ChargeList) {
    && |l.available| == |ts|
    && (forall i | 0 <= i < |ts| :: TokenNames(ts[i], l.available[i]))
    && l.active == match LastBracketed(ts) case None => None case Some(i) => Some(l.available[i])
  }

  ghost predicate Known(t: string) {
    exists m :: TokenNames(t, m)
  }

  ghost predicate AllKnown(ts: seq<string>) {
    forall i | 0 <= i < |ts| :: Known(ts[i])
  }

  lemma {:induction false} ParseTokensExact(ts: seq<string>)
    requires forall i | 0 <= i < |ts| :: IsWord(ts[i])
    ensures ParseTokens(ts).Ok? <==> AllKnown(ts)
    ensures ParseTokens(ts).Ok? ==> Describes(ts, ParseTokens(ts).value)
  {
    if ts != [] {
      var front, t := ts[..|ts| - 1], ts[|ts| - 1];
      ParseTokensExact(front);
      KnownSplits(ts);
      var c := ChargeFromSysfs(Inner(t));
      if c.Some? {
        TokenNamesExact(t, c.value);
        if ParseTokens(front).Ok? {
          ParseStep(ts, ParseTokens(front).value, c.value);
        }
      } else {
        forall m ensures !TokenNames(t, m) { TokenNamesExact(t, m); }
      }
    }
  }

  lemma KnownSplits(ts: seq<string>)
    requires ts != []
    ensures AllKnown(ts) <==> AllKnown(ts[..|ts| - 1]) && Known(ts[|ts| - 1])
  {
    var front := ts[..|ts| - 1];
    assert forall i | 0 <= i < |front| :: front[i] == ts[i];
    assert AllKnown(ts) ==> Known(ts[|ts| - 1]);
  }

  lemma ParseStep(ts: seq<string>, l: ChargeList, m: ChargeMode)
    requires ts != [] && Describes(ts[..|ts| - 1], l) && TokenNames(ts[|ts| - 1], m)
    ensures Describes(ts, ChargeList(l.available + [m], if Bracketed(ts[|ts| - 1]) then Some(m) else l.active))
  {
    hide TokenNames, Bracketed;
    var n := |ts| - 1;
    forall i | 0 <= i < |ts| ensures TokenNames(ts[i], (l.available + [m])[i]) {
      if i < n { assert TokenNames(ts[..n][i], l.available[i]); }
    }
  }

  /** For every string: parsing succeeds exactly when there is a token and every token
      names a mode; the result lists the tokens' modes in order and its active mode is
      that of the last bracketed token. */
  lemma ChargeTypesExact(raw: string)
    ensures var ts := SplitSpace(raw);
            && (ChargeTypesOf(raw).Ok? <==> ts != [] && AllKnown(ts))
            && (ChargeTypesOf(raw).Ok? ==> Describes(ts, ChargeTypesOf(raw).value))
    ensures ChargeTypesOf(raw).Ok? && ChargeTypesOf(raw).value.active.Some? ==>
              ChargeTypesOf(raw).value.active.value in ChargeTypesOf(raw).value.available
  {
    ParseTokensExact(SplitSpace(raw));
  }

  lemma TokenModeUnique(t: string, m: ChargeMode, n: ChargeMode)
    requires TokenNames(t, m) && TokenNames(t, n)
    ensures m == n
  {
  }

  /** A list is determined by the tokens it describes. */
  lemma DescribesUnique(ts: seq<string>, k: ChargeList, l: ChargeList)
    requires Describes(ts, k) && Describes(ts, l)
    ensures k == l
  {
    forall i | 0 <= i < |ts| ensures k.available[i] == l.available[i] {
      TokenModeUnique(ts[i], k.available[i], l.available[i]);
    }
    assert k.available == l.available;
  }

  lemma DescribedKnown(ts: seq<string>, l: ChargeList)
    requires Describes(ts, l)
    ensures AllKnown(ts)
  {
    forall i | 0 <= i < |ts| ensures Known(ts[i]) { assert TokenNames(ts[i], l.available[i]); }
  }

  lemma ParseDescribed(raw: string, l: ChargeList)
    requires SplitSpace(raw) != [] && Describes(SplitSpace(raw), l)
    ensures ChargeTypesOf(raw) == Ok(l)
  {
    var ts := SplitSpace(raw);
    hide Describes, AllKnown, ChargeTypesOf, SplitSpace;
    DescribedKnown(ts, l);
    ChargeTypesExact(raw);
    DescribesUnique(ts, ChargeTypesOf(raw).value, l);
  }

  // ── the kernel's rendering ────────────────────────────────────────────────

  function Token(m: ChargeMode, active: Option<ChargeMode>): string {
    if active == Some(m) then "[" + m.AsSysfs() + "]" else m.AsSysfs()
  }

  function Tokens(modes: seq<ChargeMode>, active: Option<ChargeMode>): (ts: seq<string>)
    ensures |ts| == |modes| && forall i | 0 <= i < |ts| :: ts[i] == Token(modes[i], active)
  {
    seq(|modes|, i requires 0 <= i < |modes| => Token(modes[i], active))
  }

  lemma TokenShape(m: ChargeMode, active: Option<ChargeMode>)
    ensures IsWord(Token(m, active))
    ensures Bracketed(Token(m, active)) <==> active == Some(m)
    ensures TokenNames(Token(m, active), m)
  {
    ChargeSysfsWord(m);
    BracketedWord(m.AsSysfs());
    assert m.AsSysfs()[0] != '[';
    ChargeSpellingsFold(m);
    hide Lower;
  }

  lemma BracketedWord(name: string)
    ensures Bracketed("[" + name + "]") && Inner("[" + name + "]") == name
    ensures IsWord(name) ==> IsWord("[" + name + "]")
  {
    assert ("[" + name + "]")[1..|name| + 1] == name;
  }

  /** A token is bracketed if it opens and closes; only such a pair is taken off. */
  lemma BracketsExactly(t: string)
    ensures Bracketed(t) <==> t == "[" + Inner(t) + "]"
    ensures Bracketed(t) <==> exists name: string :: t == "[" + name + "]"
    ensures !Bracketed(t) ==> Inner(t) == t
  {
    if Bracketed(t) {
      assert t == ['['] + t[1..|t| - 1] + [']'];
      assert t == "[" + Inner(t) + "]";
    }
  }

  lemma TokensParse(raw: string, modes: seq<ChargeMode>, active: Option<ChargeMode>)
    requires modes != [] && SplitSpace(raw) == Tokens(modes, active)
    requires active.Some? ==> active.value in modes
    ensures ChargeTypesOf(raw) == Ok(ChargeList(modes, active))
  {
    hide IsWord, Bracketed, TokenNames, Token, SplitSpace, ChargeTypesOf;
    var ts := Tokens(modes, active);
    if active.Some? {
      var i :| 0 <= i < |modes| && modes[i] == active.value;
      TokenShape(modes[i], active);
    }
    forall i | 0 <= i < |ts|
      ensures TokenNames(ts[i], modes[i])
      ensures Bracketed(ts[i]) <==> active == Some(modes[i])
    {
      TokenShape(modes[i], active);
    }
    ParseDescribed(raw, ChargeList(modes, active));
  }

  lemma TokensAreWords(modes: seq<ChargeMode>, active: Option<ChargeMode>)
    ensures forall i | 0 <= i < |modes| :: IsWord(Tokens(modes, active)[i])
  {
    hide IsWord, Token;
    forall i | 0 <= i < |modes| ensures IsWord(Tokens(modes, active)[i]) { TokenShape(modes[i], active); }
  }

  /** Rendered with any spacing and parsed again, a list keeps its modes, their order
      and its active mode. */
  lemma ChargeTypesRoundTrip(gaps: seq<string>, modes: seq<ChargeMode>, active: Option<ChargeMode>)
    requires modes != [] && |gaps| == |modes| + 1 && Separates(gaps)
    requires active.Some? ==> active.value in modes
    ensures ChargeTypesOf(Layout(gaps, Tokens(modes, active))) == Ok(ChargeList(modes, active))
  {
    hide IsWord, Separates, Layout, SplitSpace, ChargeTypesOf, Token;
    TokensAreWords(modes, active);
    SplitLayout(gaps, Tokens(modes, active));
    TokensParse(Layout(gaps, Tokens(modes, active)), modes, active);
  }

  /** The list as a laptop prints it, word for word. */
  lemma DocumentedList()
    ensures var modes, ts := [Fast, Standard, LongLife], ["Fast", "Standard", "[Long_Life]"];
            Tokens(modes, Some(LongLife)) == ts && ChargeTypesOf(JoinLine(ts)) == Ok(ChargeList(modes, Some(LongLife)))
  {
    var modes, ts := [Fast, Standard, LongLife], ["Fast", "Standard", "[Long_Life]"];
    LiteralTokens();
    hide Tokens, ChargeTypesOf, SplitSpace, JoinLine, IsWord, Token;
    TokensAreWords(modes, Some(LongLife));
    SplitJoinLine(ts);
    TokensParse(JoinLine(ts), modes, Some(LongLife));
  }

  lemma LiteralTokens()
    ensures Tokens([Fast, Standard, LongLife], Some(LongLife)) == ["Fast", "Standard", "[Long_Life]"]
  {
    assert Token(Fast, Some(LongLife)) == "Fast" && Token(Standard, Some(LongLife)) == "Standard";
    assert Token(LongLife, Some(LongLife)) == "[Long_Life]";
    hide Token;
  }

  // ── selecting a type ──────────────────────────────────────────────────────

  /** At most one pair of brackets, around a name. */
  predicate Clean(t: string) {
    Inner(t) != "" && !Bracketed(Inner(t))
  }

  /** The file is as the kernel prints it and lists `name`. */
  predicate Selectable(raw: string, name: string) {
    var ts := SplitSpace(raw);
    && (forall i | 0 <= i < |ts| :: Clean(ts[i]))
    && (exists i | 0 <= i < |ts| :: Inner(ts[i]) == name)
  }

  function MarkToken(t: string, name: string): string {
    if Inner(t) == name then "[" + name + "]" else Inner(t)
  }

  function Mark(ts: seq<string>, name: string): (r: seq<string>)
    ensures |r| == |ts| && forall i | 0 <= i < |ts| :: r[i] == MarkToken(ts[i], name)
  {
    seq(|ts|, i requires 0 <= i < |ts| => MarkToken(ts[i], name))
  }

  /** The kernel's write rule: the bracket moves to the named type. */
  function MoveBracket(raw: string, name: string): string
    requires Selectable(raw, name)
  {
    JoinLine(Mark(SplitSpace(raw), name))
  }

  lemma MarkedToken(t: string, name: string)
    requires IsWord(t) && Clean(t)
    ensures var u := MarkToken(t, name);
            && IsWord(u) && Clean(u) && Inner(u) == Inner(t)
            && (Bracketed(u) <==> Inner(t) == name)
            && MarkToken(u, name) == u
  {
    var u := "[" + name + "]";
    assert u[1..|name| + 1] == name;
  }

  lemma MovedTokens(raw: string, name: string)
    requires Selectable(raw, name)
    ensures SplitSpace(MoveBracket(raw, name)) == Mark(SplitSpace(raw), name)
  {
    var ts := SplitSpace(raw);
    forall i | 0 <= i < |ts| ensures IsWord(Mark(ts, name)[i]) { MarkedToken(ts[i], name); }
    SplitJoinLine(Mark(ts, name));
  }

  /** Selecting the same type twice is selecting it once. */
  lemma MoveBracketTwice(raw: string, name: string)
    requires Selectable(raw, name)
    ensures Selectable(MoveBracket(raw, name), name)
    ensures MoveBracket(MoveBracket(raw, name), name) == MoveBracket(raw, name)
  {
    var ts := SplitSpace(raw);
    var r := Mark(ts, name);
    MovedTokens(raw, name);
    forall i | 0 <= i < |ts|
      ensures Clean(r[i]) && Inner(r[i]) == Inner(ts[i]) && MarkToken(r[i], name) == r[i]
    {
      MarkedToken(ts[i], name);
    }
    assert Mark(r, name) == r;
  }

  /** The marked tokens name the same modes, and the bracket stands where `m` is named. */
  lemma MarkedDescription(ts: seq<string>, m: ChargeMode, l: ChargeList)
    requires forall i | 0 <= i < |ts| :: IsWord(ts[i]) && Clean(ts[i])
    requires exists i | 0 <= i < |ts| :: Inner(ts[i]) == m.AsSysfs()
    requires Describes(ts, l)
    ensures Describes(Mark(ts, m.AsSysfs()), ChargeList(l.available, Some(m)))
  {
    var r := Mark(ts, m.AsSysfs());
    forall i | 0 <= i < |ts|
      ensures TokenNames(r[i], l.available[i]) && (Bracketed(r[i]) ==> l.available[i] == m)
      ensures Inner(ts[i]) == m.AsSysfs() ==> Bracketed(r[i])
    {
      MarkedToken(ts[i], m.AsSysfs());
      assert TokenNames(ts[i], l.available[i]);
      ChargeSpellingsFold(m);
      if Bracketed(r[i]) { TokenModeUnique(ts[i], l.available[i], m); }
    }
  }

  lemma MarkedKnown(ts: seq<string>, name: string)
    requires forall i | 0 <= i < |ts| :: IsWord(ts[i]) && Clean(ts[i])
    ensures AllKnown(Mark(ts, name)) <==> AllKnown(ts)
  {
    var r := Mark(ts, name);
    forall i | 0 <= i < |ts| ensures Known(r[i]) <==> Known(ts[i]) {
      MarkedToken(ts[i], name);
      assert forall m :: TokenNames(r[i], m) <==> TokenNames(ts[i], m);
    }
  }

  /** After the kernel selects a mode the parser reports that mode as active and the same
      list, provided it could read the list at all; selecting neither mends nor breaks it. */
  lemma MoveBracketParses(raw: string, m: ChargeMode)
    requires Selectable(raw, m.AsSysfs())
    ensures var raw' := MoveBracket(raw, m.AsSysfs());
            if ChargeTypesOf(raw).Ok?
            then ChargeTypesOf(raw') == Ok(ChargeList(ChargeTypesOf(raw).value.available, Some(m)))
            else ChargeTypesOf(raw').Err?
  {
    var raw' := MoveBracket(raw, m.AsSysfs());
    var ts := SplitSpace(raw);
    MovedTokens(raw, m.AsSysfs());
    ChargeTypesExact(raw);
    hide ChargeTypesOf, SplitSpace, MoveBracket, Mark, AllKnown, Describes, IsWord, Clean, Inner;
    if ChargeTypesOf(raw).Ok? {
      MarkedDescription(ts, m, ChargeTypesOf(raw).value);
      ParseDescribed(raw', ChargeList(ChargeTypesOf(raw).value.available, Some(m)));
    } else {
      ChargeTypesExact(raw');
      MarkedKnown(ts, m.AsSysfs());
    }
  }

  /** The active charge mode. */
  function GetMode(m: Machine): Result<ChargeMode, HwError> {
    match Read(m, ChargeTypes)
    case Err(e) => Err(e)
    case Ok(raw) =>
      match ChargeTypesOf(raw)
      case Err(e) => Err(e)
      case Ok(l) => match l.active case Some(mode) => Ok(mode) case None => Err(Parse)
  }

  /** Reading trims the file, which leaves its tokens alone. */
  lemma {:induction false} SplitTrimStart(s: string)
    ensures SplitSpace(TrimStart(s)) == SplitSpace(s)
  {
    if s != "" && IsSpace(s[0]) { SplitTrimStart(s[1..]); }
  }

  lemma {:induction false} WordLengthIgnores(s: string, gap: string)
    requires AllSpace(gap)
    ensures WordLength(s + gap) == WordLength(s)
  {
    if s == "" {
      assert s + gap == gap;
    } else if !IsSpace(s[0]) {
      assert (s + gap)[1..] == s[1..] + gap;
      WordLengthIgnores(s[1..], gap);
    }
  }

  lemma {:induction false} SplitIgnoresEnd(s: string, gap: string)
    requires AllSpace(gap)
    ensures SplitSpace(s + gap) == SplitSpace(s)
    decreases |s|
  {
    var l := s + gap;
    if s == "" {
      assert l == gap + "";
      SplitSkipsSpace(gap, "");
    } else if IsSpace(s[0]) {
      assert l[1..] == s[1..] + gap;
      SplitIgnoresEnd(s[1..], gap);
    } else {
      var n := WordLength(s);
      WordLengthIgnores(s, gap);
      assert l[..n] == s[..n] && l[n..] == s[n..] + gap;
      SplitIgnoresEnd(s[n..], gap);
    }
  }

  lemma {:induction false} TrimEndSplits(s: string) returns (gap: string)
    ensures AllSpace(gap) && s == TrimEnd(s) + gap
  {
    if s != "" && IsSpace(s[|s| - 1]) {
      gap := TrimEndSplits(s[..|s| - 1]);
      gap := gap + [s[|s| - 1]];
    } else {
      gap := "";
    }
  }

  lemma SplitTrim(s: string)
    ensures SplitSpace(Trim(s)) == SplitSpace(s)
  {
    SplitTrimStart(s);
    var gap := TrimEndSplits(TrimStart(s));
    SplitIgnoresEnd(Trim(s), gap);
  }

  /** For every content of the file: `c` is the active mode exactly if every token names a mode and the
      last bracketed one names `c`. Without the file modes are not supported; in every other case,
      an unmarked list among them, the file does not parse. */
  lemma GetModeExactly(m: Machine, c: ChargeMode)
    ensures GetMode(m) == Ok(c) <==>
              && ChargeTypes in m.files
              && var ts := SplitSpace(m.files[ChargeTypes]);
                 AllKnown(ts) && LastBracketed(ts).Some? && TokenNames(ts[LastBracketed(ts).value], c)
    ensures GetMode(m).Err? ==> GetMode(m).error == if ChargeTypes in m.files then Parse else NotSupported
  {
    if ChargeTypes in m.files {
      var raw := m.files[ChargeTypes];
      var ts := SplitSpace(raw);
      SplitTrim(raw);
      ChargeTypesExact(raw);
      hide SplitSpace, Trim, AllKnown, TokenNames, ParseTokens;
      ParseFailure(ts);
      if ChargeTypesOf(raw).Ok? && LastBracketed(ts).Some? {
        var i := LastBracketed(ts).value;
        assert TokenNames(ts[i], ChargeTypesOf(raw).value.available[i]);
        if TokenNames(ts[i], c) { TokenModeUnique(ts[i], c, ChargeTypesOf(raw).value.available[i]); }
      }
    }
  }
}
