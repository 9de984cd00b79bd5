/** The string operations sysfs values go through: trimming, ASCII case folding,
    splitting at white space, and decimal printing and parsing of `u32`. */
module Text {
  import opened Wrappers

  /** Unicode White_Space, which is what Rust's `trim` and `split_whitespace` use. */
  predicate IsSpace(c: char) {
    var n := c as int;
    || 0x09 <= n <= 0x0D || n == 0x20 || n == 0x85 || n == 0xA0 || n == 0x1680
    || 0x2000 <= n <= 0x200A || n == 0x2028 || n == 0x2029 || n == 0x202F
    || n == 0x205F || n == 0x3000
  }

  /** The twenty-five characters of that property, one by one. */
  lemma IsSpaceExactly(c: char)
    ensures IsSpace(c) <==>
              c as int in {0x09, 0x0A, 0x0B, 0x0C, 0x0D, 0x20, 0x85, 0xA0, 0x1680, 0x2000, 0x2001, 0x2002, 0x2003, 0x2004, 0x2005,
                           0x2006, 0x2007, 0x2008, 0x2009, 0x200A, 0x2028, 0x2029, 0x202F, 0x205F, 0x3000}
  {
  }

  predicate AllSpace(s: string) {
    forall i | 0 <= i < |s| :: IsSpace(s[i])
  }

  /** A non-empty run of characters none of which is white space. */
  predicate IsWord(s: string) {
    s != "" && forall i | 0 <= i < |s| :: !IsSpace(s[i])
  }

  // ── trimming ──────────────────────────────────────────────────────────────

  function TrimStart(s: string): string {
    if s != "" && IsSpace(s[0]) then TrimStart(s[1..]) else s
  }

  function TrimEnd(s: string): string {
    if s != "" && IsSpace(s[|s| - 1]) then TrimEnd(s[..|s| - 1]) else s
  }

  function Trim(s: string): string {
    TrimEnd(TrimStart(s))
  }

  /** A value without white space at its ends survives the kernel's newline. */
  lemma TrimLine(s: string)
    requires s != "" && !IsSpace(s[0]) && !IsSpace(s[|s| - 1])
    ensures Trim(s) == s
    ensures Trim(s + "\n") == s
  {
    var line := s + "\n";
    assert line[0] == s[0];
    assert TrimStart(line) == line;
    assert line[..|line| - 1] == s;
    assert TrimEnd(s) == s;
  }

  lemma TrimWord(s: string)
    requires IsWord(s)
    ensures Trim(s) == s && Trim(s + "\n") == s
  {
    TrimLine(s);
  }

  lemma {:induction false} TrimStartPadded(gap: string, s: string)
    requires AllSpace(gap)
    ensures TrimStart(gap + s) == TrimStart(s)
  {
    if gap == "" {
      assert gap + s == s;
    } else {
      assert (gap + s)[1..] == gap[1..] + s;
      TrimStartPadded(gap[1..], s);
    }
  }

  lemma {:induction false} TrimEndPadded(s: string, gap: string)
    requires AllSpace(gap)
    ensures TrimEnd(s + gap) == TrimEnd(s)
  {
    if gap == "" {
      assert s + gap == s;
    } else {
      assert (s + gap)[..|s + gap| - 1] == s + gap[..|gap| - 1];
      TrimEndPadded(s, gap[..|gap| - 1]);
    }
  }

  lemma {:induction false} TrimStartBefore(s: string, gap: string)
    requires AllSpace(gap)
    ensures Trim(s + gap) == Trim(s)
  {
    if s == "" {
      assert s + gap == gap && gap + "" == gap;
      TrimStartPadded(gap, "");
    } else if IsSpace(s[0]) {
      assert (s + gap)[1..] == s[1..] + gap;
      TrimStartBefore(s[1..], gap);
    } else {
      TrimEndPadded(s, gap);
    }
  }

  /** White space around a value makes no difference. */
  lemma TrimPadded(before: string, s: string, after: string)
    requires AllSpace(before) && AllSpace(after)
    ensures Trim(before + s + after) == Trim(s)
  {
    assert before + s + after == before + (s + after);
    TrimStartPadded(before, s + after);
    TrimStartBefore(s, after);
  }

  // ── ASCII case folding ────────────────────────────────────────────────────

  function LowerChar(c: char): char {
    if 'A' <= c <= 'Z' then c - 'A' + 'a' else c
  }

  /** The same character, or one ASCII letter small and capital. */
  predicate SameLetter(c: char, d: char) {
    || c == d
    || ('a' <= c <= 'z' && c as int == d as int + 32)
    || ('a' <= d <= 'z' && d as int == c as int + 32)
  }

  /** The same text but for the case of ASCII letters. */
  predicate SpelledLike(s: string, t: string) {
    |s| == |t| && forall i | 0 <= i < |s| :: SameLetter(s[i], t[i])
  }

  lemma SameLetterExactly(c: char, d: char)
    ensures LowerChar(c) == LowerChar(d) <==> SameLetter(c, d)
  {
  }

  /** Folding forgets the case of letters, and nothing else. */
  lemma LowerExactly(s: string, t: string)
    ensures Lower(s) == Lower(t) <==> SpelledLike(s, t)
  {
    hide LowerChar, SameLetter;
    if |s| == |t| {
      forall i | 0 <= i < |s| ensures Lower(s)[i] == Lower(t)[i] <==> SameLetter(s[i], t[i]) {
        SameLetterExactly(s[i], t[i]);
      }
      if SpelledLike(s, t) { assert Lower(s) == Lower(t); }
    }
  }

  /** `to_ascii_lowercase`. */
  function Lower(s: string): (r: string)
    ensures |r| == |s|
    ensures forall i | 0 <= i < |s| :: r[i] == LowerChar(s[i])
  {
    if s == "" then "" else [LowerChar(s[0])] + Lower(s[1..])
  }

  /** `t` is the folding of `s` when it is so character by character. */
  lemma LowerIs(s: string, t: string)
    requires |s| == |t| && forall i | 0 <= i < |s| :: LowerChar(s[i]) == t[i]
    ensures Lower(s) == t
  {
  }

  lemma {:induction false} LowerTrimStart(s: string)
    ensures TrimStart(Lower(s)) == Lower(TrimStart(s))
  {
    if s != "" && IsSpace(s[0]) {
      assert Lower(s)[1..] == Lower(s[1..]);
      LowerTrimStart(s[1..]);
    }
  }

  lemma {:induction false} LowerTrimEnd(s: string)
    ensures TrimEnd(Lower(s)) == Lower(TrimEnd(s))
  {
    if s != "" && IsSpace(s[|s| - 1]) {
      assert Lower(s)[..|s| - 1] == Lower(s[..|s| - 1]);
      LowerTrimEnd(s[..|s| - 1]);
    }
  }

  /** Folding case and trimming commute. */
  lemma LowerTrim(s: string)
    ensures Trim(Lower(s)) == Lower(Trim(s))
  {
    LowerTrimStart(s);
    LowerTrimEnd(TrimStart(s));
  }

  /** `replace(c, by)` for single characters. */
  function Replace(s: string, cs: set<char>, to: char): (r: string)
    ensures |r| == |s|
    ensures forall i | 0 <= i < |s| :: r[i] == if s[i] in cs then to else s[i]
  {
    if s == "" then "" else [if s[0] in cs then to else s[0]] + Replace(s[1..], cs, to)
  }

  /** `replace(c, "")`. */
  function Remove(s: string, c: char): string {
    if s == "" then ""
    else if s[0] == c then Remove(s[1..], c)
    else [s[0]] + Remove(s[1..], c)
  }

  /** Lower-case letters, digits and the two separators. */
  predicate IsPlainChar(c: char) {
    'a' <= c <= 'z' || '0' <= c <= '9' || c == '-' || c == '_'
  }

  /** A plain name is a word, and neither folding nor trimming changes it. */
  lemma PlainName(s: string)
    requires s != "" && forall i | 0 <= i < |s| :: IsPlainChar(s[i])
    ensures IsWord(s) && Lower(s) == s && Trim(s) == s && Trim(s + "\n") == s
  {
    assert IsWord(s);
    hide Lower, Trim, IsWord;
    LowerIs(s, s);
    TrimWord(s);
  }

  // ── splitting at white space ──────────────────────────────────────────────

  /** Length of the longest prefix without white space. */
  function WordLength(s: string): (n: nat)
    ensures n <= |s|
    ensures forall i | 0 <= i < n :: !IsSpace(s[i])
    ensures n < |s| ==> IsSpace(s[n])
  {
    if s == "" || IsSpace(s[0]) then 0 else 1 + WordLength(s[1..])
  }

  /** `split_whitespace`, collected. */
  function SplitSpace(s: string): (ts: seq<string>)
    ensures forall i | 0 <= i < |ts| :: IsWord(ts[i])
    decreases |s|
  {
    if s == "" then []
    else if IsSpace(s[0]) then SplitSpace(s[1..])
    else
      var n := WordLength(s);
      [s[..n]] + SplitSpace(s[n..])
  }

  /** A line holding `ts`, with `gaps[i]` before `ts[i]` and `gaps[|ts|]` at the end. */
  function Layout(gaps: seq<string>, ts: seq<string>): string
    requires |gaps| == |ts| + 1
  {
    if ts == [] then gaps[0] else gaps[0] + ts[0] + Layout(gaps[1..], ts[1..])
  }

  /** Gaps are white space, and only the outermost two may be empty. */
  ghost predicate Separates(gaps: seq<string>) {
    && (forall i | 0 <= i < |gaps| :: AllSpace(gaps[i]))
    && (forall i | 0 < i < |gaps| - 1 :: gaps[i] != "")
  }

  lemma {:induction false} SplitSkipsSpace(gap: string, s: string)
    requires AllSpace(gap)
    ensures SplitSpace(gap + s) == SplitSpace(s)
  {
    if gap == "" {
      assert gap + s == s;
    } else {
      assert (gap + s)[1..] == gap[1..] + s;
      SplitSkipsSpace(gap[1..], s);
    }
  }

  lemma {:induction false} WordLengthAt(w: string, s: string)
    requires IsWord(w) && (s == "" || IsSpace(s[0]))
    ensures WordLength(w + s) == |w|
  {
    assert (w + s)[1..] == w[1..] + s;
    if |w| == 1 {
      assert (w + s)[1..] == s;
    } else {
      WordLengthAt(w[1..], s);
    }
  }

  /** However the words are spaced out, splitting gives them back. */
  lemma {:induction false} SplitLayout(gaps: seq<string>, ts: seq<string>)
    requires |gaps| == |ts| + 1 && Separates(gaps)
    requires forall i | 0 <= i < |ts| :: IsWord(ts[i])
    ensures SplitSpace(Layout(gaps, ts)) == ts
    decreases |ts|
  {
    if ts == [] {
      assert gaps[0] + "" == gaps[0];
      SplitSkipsSpace(gaps[0], "");
    } else {
      var rest := Layout(gaps[1..], ts[1..]);
      var s := ts[0] + rest;
      assert Layout(gaps, ts) == gaps[0] + s;
      SplitSkipsSpace(gaps[0], s);
      assert rest == "" || IsSpace(rest[0]) by {
        if |ts| > 1 { assert gaps[1] != ""; }
      }
      WordLengthAt(ts[0], rest);
      assert s[0] == ts[0][0];
      assert s[..|ts[0]|] == ts[0] && s[|ts[0]|..] == rest;
      SplitLayout(gaps[1..], ts[1..]);
    }
  }

  /** The kernel's own layout: single spaces and a final newline. */
  function JoinLine(ts: seq<string>): string
    requires ts != []
  {
    if |ts| == 1 then ts[0] + "\n" else ts[0] + " " + JoinLine(ts[1..])
  }

  lemma {:induction false} SplitJoinLine(ts: seq<string>)
    requires ts != [] && forall i | 0 <= i < |ts| :: IsWord(ts[i])
    ensures SplitSpace(JoinLine(ts)) == ts
  {
    var rest := if |ts| == 1 then "\n" else " " + JoinLine(ts[1..]);
    var s := ts[0] + rest;
    assert JoinLine(ts) == s;
    WordLengthAt(ts[0], rest);
    assert s[0] == ts[0][0];
    assert s[..|ts[0]|] == ts[0] && s[|ts[0]|..] == rest;
    if |ts| == 1 {
      SplitSkipsSpace("\n", "");
      assert "\n" + "" == "\n";
    } else {
      SplitSkipsSpace(" ", JoinLine(ts[1..]));
      SplitJoinLine(ts[1..]);
    }
  }

  // ── decimal u32 ───────────────────────────────────────────────────────────

  const U32_MAX: nat := 0xFFFF_FFFF

  /** The values of Rust's `u32`. */
  type u32 = n: int | 0 <= n <= U32_MAX

  function Digit(d: nat): char
    requires d < 10
  {
    '0' + d as char
  }

  /** `u32::to_string`. */
  function Print(n: nat): (s: string)
    ensures IsWord(s)
    ensures forall i | 0 <= i < |s| :: '0' <= s[i] <= '9'
  {
    if n < 10 then [Digit(n)] else Print(n / 10) + [Digit(n % 10)]
  }

  /** Digits read left to right, failing at the first overflow or non-digit, as
      the standard library's checked multiply and add do. */
  function ParseDigits(s: string): Option<u32>
    requires s != ""
  {
    var c := s[|s| - 1];
    if !('0' <= c <= '9') then None
    else
      var d := (c - '0') as int;
      if |s| == 1 then Some(d)
      else
        match ParseDigits(s[..|s| - 1])
        case None => None
        case Some(v) => if v * 10 + d <= U32_MAX then Some(v * 10 + d) else None
  }

  /** `str::parse::<u32>`: an optional plus sign, then at least one digit. */
  function ParseU32(s: string): Option<u32> {
    if s == "" || s == "+" || s == "-" then None
    else if s[0] == '+' then ParseDigits(s[1..])
    else ParseDigits(s)
  }

  lemma {:induction false} ParseDigitsPrint(n: nat)
    ensures ParseDigits(Print(n)) == if n <= U32_MAX then Some(n) else None
  {
    if n >= 10 {
      ParseDigitsPrint(n / 10);
      var s := Print(n);
      assert s[..|s| - 1] == Print(n / 10);
      assert s[|s| - 1] == Digit(n % 10);
    }
  }

  /** Printing and parsing are inverse exactly on the u32 range; beyond it parsing fails. */
  lemma ParsePrint(n: nat)
    ensures ParseU32(Print(n)) == if n <= U32_MAX then Some(n) else None
    ensures ParseU32(Trim(Print(n) + "\n")) == ParseU32(Print(n))
  {
    ParseDigitsPrint(n);
    TrimWord(Print(n));
    assert '0' <= Print(n)[0] <= '9';
  }

  predicate AllDigits(s: string) {
    forall i | 0 <= i < |s| :: '0' <= s[i] <= '9'
  }

  /** The number a run of digits denotes, however long. */
  function Decimal(s: string): nat
    requires AllDigits(s)
  {
    if s == "" then 0 else Decimal(s[..|s| - 1]) * 10 + (s[|s| - 1] - '0') as int
  }

  lemma {:induction false} ParseDigitsExact(s: string)
    requires s != ""
    ensures ParseDigits(s) == if AllDigits(s) && Decimal(s) <= U32_MAX then Some(Decimal(s)) else None
  {
    if |s| == 1 {
      assert Decimal(s[..0]) == 0;
    } else {
      ParseDigitsExact(s[..|s| - 1]);
      assert AllDigits(s) <==> AllDigits(s[..|s| - 1]) && '0' <= s[|s| - 1] <= '9';
    }
  }

  /** What reading a number accepts: at least one digit, after a plus sign if need be, denoting a
      number of at most 32 bits. */
  lemma ParseU32Exact(s: string, v: u32)
    ensures ParseU32(s) == Some(v) <==>
              var digits := if s != "" && s[0] == '+' then s[1..] else s;
              digits != "" && AllDigits(digits) && Decimal(digits) == v
  {
    var digits := if s != "" && s[0] == '+' then s[1..] else s;
    if digits != "" { ParseDigitsExact(digits); }
  }

  lemma PrintStep(n: nat, d: nat)
    requires n > 0 && d < 10
    ensures Print(n * 10 + d) == Print(n) + [Digit(d)]
  {
  }

  lemma Figures()
    ensures Digit(4) == '4' && Digit(0) == '0' && Digit(7) == '7' && Print(4) == "4"
  {
  }

  /** In figures: base ten. */
  lemma InFigures()
    ensures Print(4070) == "4070" && ParseU32("4070") == Some(4070)
  {
    hide Print, ParseU32, Digit, Trim;
    Figures();
    PrintStep(4, 0);
    PrintStep(40, 7);
    PrintStep(407, 0);
    ParsePrint(4070);
  }

  /** And 32 bits. */
  lemma InBits()
    ensures ParseU32(Print(4_294_967_295)) == Some(4_294_967_295) && ParseU32(Print(4_294_967_296)) == None
  {
    hide Trim, Print, ParseU32;
    ParsePrint(4_294_967_295);
    ParsePrint(4_294_967_296);
  }
}
