/** The code set of the 16-colour palette: SGR parameter codes (ECMA-48
    section 8.3.117, with the aixterm extension 90-97 and 100-107), their
    decimal rendering, the name tables, and the joining of several codes
    into one semicolon-separated parameter list. */
module Codes {

  /** A colour or option code: an unsigned byte. */
  newtype Color = x: int | 0 <= x < 256

  // Each iota block below is written as offsets from its first constant,
  // as iota counts; the explicit values the blocks end with are literals.

  // Basic foreground colours, iota + 30, and the default foreground 39.
  const FgBlack: Color := 30
  const FgRed: Color := FgBlack + 1
  const FgGreen: Color := FgBlack + 2
  const FgYellow: Color := FgBlack + 3
  const FgBlue: Color := FgBlack + 4
  const FgMagenta: Color := FgBlack + 5
  const FgCyan: Color := FgBlack + 6
  const FgWhite: Color := FgBlack + 7
  const FgDefault: Color := 39

  // Extra foreground colours, iota + 90; FgGray is an alias of FgDarkGray.
  const FgDarkGray: Color := 90
  const FgLightRed: Color := FgDarkGray + 1
  const FgLightGreen: Color := FgDarkGray + 2
  const FgLightYellow: Color := FgDarkGray + 3
  const FgLightBlue: Color := FgDarkGray + 4
  const FgLightMagenta: Color := FgDarkGray + 5
  const FgLightCyan: Color := FgDarkGray + 6
  const FgLightWhite: Color := FgDarkGray + 7
  const FgGray: Color := 90

  // Basic background colours, iota + 40, and the default background 49.
  const BgBlack: Color := 40
  const BgRed: Color := BgBlack + 1
  const BgGreen: Color := BgBlack + 2
  const BgYellow: Color := BgBlack + 3
  const BgBlue: Color := BgBlack + 4
  const BgMagenta: Color := BgBlack + 5
  const BgCyan: Color := BgBlack + 6
  const BgWhite: Color := BgBlack + 7
  const BgDefault: Color := 49

  // Extra background colours, iota + 99. The block starts at 99, not 100,
  // so the eight codes are 99-106 and BgGray (100) is not the same code as
  // BgDarkGray.
  const BgDarkGray: Color := 99
  const BgLightRed: Color := BgDarkGray + 1
  const BgLightGreen: Color := BgDarkGray + 2
  const BgLightYellow: Color := BgDarkGray + 3
  const BgLightBlue: Color := BgDarkGray + 4
  const BgLightMagenta: Color := BgDarkGray + 5
  const BgLightCyan: Color := BgDarkGray + 6
  const BgLightWhite: Color := BgDarkGray + 7
  const BgGray: Color := 100

  // Options, iota, in declaration order.
  const OpReset: Color := 0
  const OpBold: Color := OpReset + 1
  const OpFuzzy: Color := OpReset + 2
  const OpItalic: Color := OpReset + 3
  const OpUnderscore: Color := OpReset + 4
  const OpBlink: Color := OpReset + 5
  const OpFastBlink: Color := OpReset + 6
  const OpReverse: Color := OpReset + 7
  const OpConcealed: Color := OpReset + 8
  const OpStrikethrough: Color := OpReset + 9

  // Short aliases.
  const Red: Color := FgRed
  const Cyan: Color := FgCyan
  const Gray: Color := FgDarkGray
  const Blue: Color := FgBlue
  const Black: Color := FgBlack
  const Green: Color := FgGreen
  const White: Color := FgWhite
  const Yellow: Color := FgYellow
  const Magenta: Color := FgMagenta
  const Bold: Color := OpBold
  const Normal: Color := FgDefault

  /** The named codes, block by block (the aliases name codes of these blocks). */
  const FgCodes: set<Color> := {FgBlack, FgRed, FgGreen, FgYellow, FgBlue, FgMagenta, FgCyan, FgWhite, FgDefault}
  const ExFgCodes: set<Color> := {FgDarkGray, FgLightRed, FgLightGreen, FgLightYellow, FgLightBlue, FgLightMagenta, FgLightCyan, FgLightWhite, FgGray}
  const BgCodes: set<Color> := {BgBlack, BgRed, BgGreen, BgYellow, BgBlue, BgMagenta, BgCyan, BgWhite, BgDefault}
  const ExBgCodes: set<Color> := {BgDarkGray, BgLightRed, BgLightGreen, BgLightYellow, BgLightBlue, BgLightMagenta, BgLightCyan, BgLightWhite, BgGray}
  const OpCodes: set<Color> := {OpReset, OpBold, OpFuzzy, OpItalic, OpUnderscore, OpBlink, OpFastBlink, OpReverse, OpConcealed, OpStrikethrough}
  const AliasCodes: set<Color> := {Red, Cyan, Gray, Blue, Black, Green, White, Yellow, Magenta, Bold, Normal}

  /*************************************************************
   * Decimal rendering
   *************************************************************/

  predicate IsDigit(ch: char) {
    '0' <= ch <= '9'
  }

  predicate AllDigits(s: string) {
    forall i :: 0 <= i < |s| ==> IsDigit(s[i])
  }

  function DigitChar(d: nat): (ch: char)
    requires d < 10
    ensures IsDigit(ch)
  {
    (('0' as int) + d) as char
  }

  function DigitValue(ch: char): (d: nat)
    requires IsDigit(ch)
    ensures d < 10 && DigitChar(d) == ch
  {
    (ch as int) - ('0' as int)
  }

  /** The %d rendering of n: a non-empty run of digits, no sign, and no
      leading zero unless n is zero itself. */
  function Decimal(n: nat): (r: string)
    ensures |r| > 0 && AllDigits(r)
    ensures r[0] == '0' <==> n == 0
    decreases n
  {
    if n < 10 then [DigitChar(n)] else Decimal(n / 10) + [DigitChar(n % 10)]
  }

  /** Reads a run of decimal digits back as a number. */
  function ParseDecimal(s: string): nat
    requires AllDigits(s)
  {
    if s == [] then 0 else 10 * ParseDecimal(s[..|s| - 1]) + DigitValue(s[|s| - 1])
  }

  /** Parsing undoes the decimal rendering. */
  lemma {:induction false} DecimalRoundTrip(n: nat)
    ensures ParseDecimal(Decimal(n)) == n
    decreases n
  {
    if n >= 10 {
      DecimalRoundTrip(n / 10);
      var s := Decimal(n);
      assert s[..|s| - 1] == Decimal(n / 10);
    }
  }

  /** The rendering has one, two or three digits exactly as n has. */
  lemma DecimalLength(n: nat)
    ensures |Decimal(n)| == 1 <==> n < 10
    ensures |Decimal(n)| == 2 <==> 10 <= n < 100
    ensures |Decimal(n)| == 3 <==> 100 <= n < 1000
  {
    if n >= 10 {
      DecimalLength(n / 10);
    }
  }

  /** The decimal string of a code, as its String method gives it (e.g.
      "35"): one to three digits without padding, and it determines the
      code. */
  function CodeString(c: Color): (r: string)
    ensures 1 <= |r| <= 3 && AllDigits(r)
    ensures r[0] == '0' ==> r == "0"
    ensures ParseDecimal(r) == c as nat
  {
    DecimalLength(c as nat);
    DecimalRoundTrip(c as nat);
    Decimal(c as nat)
  }

  lemma CodeStringExamples()
    ensures CodeString(FgMagenta) == "35"
    ensures CodeString(OpReset) == "0"
    ensures CodeString(BgLightWhite) == "106"
  {
    assert FgMagenta == 35 && BgLightWhite == 106;
  }

  /*************************************************************
   * Validity
   *************************************************************/

  /** The loose range check of IsValid: strictly below 107. Valid codes
      run up to the highest named code, BgLightWhite, and every named code
      is valid. */
  function IsValid(c: Color): (valid: bool)
    ensures valid <==> c <= BgLightWhite
    ensures c in FgCodes || c in ExFgCodes || c in BgCodes ==> valid
    ensures c in ExBgCodes || c in OpCodes || c in AliasCodes ==> valid
  {
    c < 107
  }

  /** 106 is the largest valid code; every named code is valid, although
      the range also admits codes that name nothing (10-29, 50-89, ...). */
  lemma ValidRange()
    ensures forall c: Color :: IsValid(c) <==> c <= 106
    ensures IsValid(106) && !IsValid(107)
    ensures forall c :: c in FgCodes || c in ExFgCodes || c in BgCodes ==> IsValid(c)
    ensures forall c :: c in ExBgCodes || c in OpCodes || c in AliasCodes ==> IsValid(c)
    ensures IsValid(50) && 50 !in FgCodes && 50 !in BgCodes && 50 !in ExFgCodes
  {
  }

  /** The values the constant blocks produce. */
  lemma ConstantValues()
    ensures FgBlack == 30 && FgWhite == 37 && FgDefault == 39
    ensures FgDarkGray == 90 && FgLightWhite == 97 && FgGray == FgDarkGray
    ensures BgBlack == 40 && BgWhite == 47 && BgDefault == 49
    ensures BgDarkGray == 99 && BgLightWhite == 106
    ensures BgGray == 100 && BgGray == BgLightRed && BgGray != BgDarkGray
    ensures OpReset == 0 && OpFastBlink == 6 && OpStrikethrough == 9
  {
  }

  /*************************************************************
   * Name tables
   *************************************************************/

  const FgColors: map<string, Color> := map[
    "black" := FgBlack,
    "red" := FgRed,
    "green" := FgGreen,
    "yellow" := FgYellow,
    "blue" := FgBlue,
    "magenta" := FgMagenta,
    "cyan" := FgCyan,
    "white" := FgWhite,
    "default" := FgDefault
  ]

  const BgColors: map<string, Color> := map[
    "black" := BgBlack,
    "red" := BgRed,
    "green" := BgGreen,
    "yellow" := BgYellow,
    "blue" := BgBlue,
    "magenta" := BgMagenta,
    "cyan" := BgCyan,
    "white" := BgWhite,
    "default" := BgDefault
  ]

  const ExFgColors: map<string, Color> := map[
    "darkGray" := FgDarkGray,
    "lightRed" := FgLightRed,
    "lightGreen" := FgLightGreen,
    "lightYellow" := FgLightYellow,
    "lightBlue" := FgLightBlue,
    "lightMagenta" := FgLightMagenta,
    "lightCyan" := FgLightCyan,
    "lightWhite" := FgLightWhite
  ]

  const ExBgColors: map<string, Color> := map[
    "darkGray" := BgDarkGray,
    "lightRed" := BgLightRed,
    "lightGreen" := BgLightGreen,
    "lightYellow" := BgLightYellow,
    "lightBlue" := BgLightBlue,
    "lightMagenta" := BgLightMagenta,
    "lightCyan" := BgLightCyan,
    "lightWhite" := BgLightWhite
  ]

  const Options: map<string, Color> := map[
    "reset" := OpReset,
    "bold" := OpBold,
    "fuzzy" := OpFuzzy,
    "italic" := OpItalic,
    "underscore" := OpUnderscore,
    "blink" := OpBlink,
    "reverse" := OpReverse,
    "concealed" := OpConcealed
  ]

  /** No two names of a table share a code. */
  predicate Injective(m: map<string, Color>) {
    forall a, b :: a in m && b in m && m[a] == m[b] ==> a == b
  }

  /** The foreground table maps its nine names to the matching constants,
      no two names to one code, and holds only valid codes of 30-39. */
  lemma FgColorsTable()
    ensures FgColors["default"] == FgDefault == 39 && FgColors["magenta"] == FgMagenta == 35
    ensures Injective(FgColors)
    ensures forall n :: n in FgColors ==> IsValid(FgColors[n]) && FgColors[n] in FgCodes
  {
  }

  /** The background table: nine names, valid codes of 40-49. */
  lemma BgColorsTable()
    ensures BgColors["default"] == BgDefault == 49 && BgColors["black"] == BgBlack == 40
    ensures Injective(BgColors)
    ensures forall n :: n in BgColors ==> IsValid(BgColors[n]) && BgColors[n] in BgCodes
  {
  }

  /** The extra foreground table covers 90-97; "darkGray" gives the code
      FgGray also names. */
  lemma ExFgColorsTable()
    ensures ExFgColors["darkGray"] == FgGray && ExFgColors["lightRed"] == FgLightRed == 91
    ensures Injective(ExFgColors)
    ensures forall n :: n in ExFgColors ==> IsValid(ExFgColors[n]) && ExFgColors[n] in ExFgCodes
  {
  }

  /** The extra background table covers 99-106: "darkGray" gives 99, and
      "lightRed" gives 100, the code BgGray names. */
  lemma ExBgColorsTable()
    ensures ExBgColors["darkGray"] == BgDarkGray == 99
    ensures ExBgColors["lightRed"] == BgLightRed == BgGray
    ensures Injective(ExBgColors)
    ensures forall n :: n in ExBgColors ==> IsValid(ExBgColors[n]) && ExBgColors[n] in ExBgCodes
  {
  }

  /** The option table names eight of the ten options: fast blink and
      strikethrough have no name, so no name gives 6 or 9. */
  lemma OptionsTable()
    ensures Options["bold"] == Bold == OpBold && Options["reverse"] == OpReverse == 7
    ensures "fastBlink" !in Options && "strikethrough" !in Options
    ensures Injective(Options)
    ensures forall n :: n in Options ==> IsValid(Options[n]) && Options[n] <= OpConcealed && Options[n] != OpFastBlink
  {
  }

  /*************************************************************
   * Joining codes
   *************************************************************/

  /** strings.Join: the parts with sep between neighbours. */
  function Join(parts: seq<string>, sep: string): string {
    if |parts| == 0 then ""
    else if |parts| == 1 then parts[0]
    else parts[0] + sep + Join(parts[1..], sep)
  }

  function CodeStrings(colors: seq<Color>): seq<string> {
    seq(|colors|, i requires 0 <= i < |colors| => CodeString(colors[i]))
  }

  /** The parameter list of several codes: their decimal strings joined by
      ';' in the order given. */
  function JoinCodes(colors: seq<Color>): (r: string)
    ensures r == "" <==> |colors| == 0
    ensures |colors| == 1 ==> r == CodeString(colors[0])
  {
    Join(CodeStrings(colors), ";")
  }

  /** colors2code: collects each code's string in a loop, then joins them. */
  method ColorsToCode(colors: seq<Color>) returns (code: string)
    ensures code == JoinCodes(colors)
  {
    if |colors| == 0 {
      return "";
    }
    var codes: seq<string> := [];
    for i := 0 to |colors|
      invariant |codes| == i
      invariant forall k :: 0 <= k < i ==> codes[k] == CodeString(colors[k])
    {
      codes := codes + [CodeString(colors[i])];
    }
    assert codes == CodeStrings(colors);
    code := Join(codes, ";");
  }

  /** strings.Split with separator ";". */
  function SplitSemi(s: string): (parts: seq<string>)
    ensures |parts| > 0
  {
    if s == [] then [""]
    else
      var rest := SplitSemi(s[1..]);
      if s[0] == ';' then [""] + rest else [[s[0]] + rest[0]] + rest[1..]
  }

  /** k semicolons give k + 1 parts. */
  lemma {:induction false} SplitCount(s: string)
    ensures |SplitSemi(s)| == multiset(s)[';'] + 1
  {
    if s != [] {
      SplitCount(s[1..]);
      assert s == [s[0]] + s[1..];
    }
  }

  lemma {:induction false} SplitNoSemi(p: string)
    requires ';' !in p
    ensures SplitSemi(p) == [p]
  {
    if p != [] {
      SplitNoSemi(p[1..]);
      assert [p[0]] + p[1..] == p;
    }
  }

  lemma {:induction false} SplitAfterPart(p: string, t: string)
    requires ';' !in p
    ensures SplitSemi(p + ";" + t) == [p] + SplitSemi(t)
  {
    var s := p + ";" + t;
    if p == [] {
      assert s[0] == ';' && s[1..] == t;
    } else {
      SplitAfterPart(p[1..], t);
      assert s[0] == p[0] && s[1..] == p[1..] + ";" + t;
      var rest := SplitSemi(s[1..]);
      assert rest == [p[1..]] + SplitSemi(t);
      assert SplitSemi(s) == [[p[0]] + rest[0]] + rest[1..];
      assert [p[0]] + p[1..] == p;
    }
  }

  /** Splitting at ';' recovers the joined parts when none holds a ';'. */
  lemma {:induction false} SplitJoin(parts: seq<string>)
    requires |parts| > 0
    requires forall i :: 0 <= i < |parts| ==> ';' !in parts[i]
    ensures SplitSemi(Join(parts, ";")) == parts
  {
    if |parts| == 1 {
      SplitNoSemi(parts[0]);
    } else {
      SplitJoin(parts[1..]);
      SplitAfterPart(parts[0], Join(parts[1..], ";"));
      assert [parts[0]] + parts[1..] == parts;
    }
  }

  /** Reads a parameter list back as codes. */
  function ParseCodes(s: string): seq<nat>
    requires forall p :: p in SplitSemi(s) ==> AllDigits(p)
  {
    var parts := SplitSemi(s);
    seq(|parts|, i requires 0 <= i < |parts| => ParseDecimal(parts[i]))
  }

  /** The parameter list of a non-empty code list splits back into each
      code's string, and parses back into the codes, in input order. */
  lemma JoinCodesRoundTrip(colors: seq<Color>)
    requires |colors| > 0
    ensures SplitSemi(JoinCodes(colors)) == CodeStrings(colors)
    ensures forall p :: p in SplitSemi(JoinCodes(colors)) ==> AllDigits(p)
    ensures ParseCodes(JoinCodes(colors)) == seq(|colors|, i requires 0 <= i < |colors| => colors[i] as nat)
  {
    var parts := CodeStrings(colors);
    assert forall i :: 0 <= i < |parts| ==> ';' !in parts[i] && ParseDecimal(parts[i]) == colors[i] as nat;
    SplitJoin(parts);
  }

  /** A list of n codes has exactly n - 1 semicolons, and holds only
      digits and semicolons. */
  lemma JoinCodesShape(colors: seq<Color>)
    ensures |colors| > 0 ==> multiset(JoinCodes(colors))[';'] == |colors| - 1
    ensures forall i :: 0 <= i < |JoinCodes(colors)| ==> IsDigit(JoinCodes(colors)[i]) || JoinCodes(colors)[i] == ';'
  {
    if |colors| > 0 {
      JoinCodesRoundTrip(colors);
      SplitCount(JoinCodes(colors));
      JoinCodesAlphabet(colors);
    }
  }

  lemma {:induction false} JoinCodesAlphabet(colors: seq<Color>)
    requires |colors| > 0
    ensures |JoinCodes(colors)| >= |CodeString(colors[0])|
    ensures forall i :: 0 <= i < |JoinCodes(colors)| ==> IsDigit(JoinCodes(colors)[i]) || JoinCodes(colors)[i] == ';'
  {
    var parts := CodeStrings(colors);
    if |colors| > 1 {
      JoinCodesAlphabet(colors[1..]);
      assert parts[1..] == CodeStrings(colors[1..]);
      assert JoinCodes(colors) == parts[0] + ";" + JoinCodes(colors[1..]);
    }
  }
}
