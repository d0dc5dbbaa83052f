# color: a Dafny model of the 16-colour SGR layer

This project models the core of `color`, a small Go library that colours terminal
text with ANSI escape sequences. The sequences follow ECMA-48 (ISO 6429): a
Control Sequence Introducer `ESC [` (section 5.4), then the parameters of SELECT
GRAPHIC RENDITION (section 8.3.117), then `m`. The codes 90-97 and 100-107 are
the non-standard aixterm extension.

The model has three modules.

- `Codes` (`codes.dfy`, from `color_16.go`) is the code set. `Color` is an
  unsigned byte. The named constants, aliases and five name tables are
  transcribed from `color_16.go`. `CodeString` is the `%d` rendering that `String()`
  gives, `IsValid` is the range check, and `ColorsToCode` is `colors2code`: a loop
  that collects each code's string and joins the strings with `;`. The method is
  proved against the function `JoinCodes`. `SplitSemi` and `ParseCodes` give
  `JoinCodes` an inverse, and the round trip between them is proved.
- `Sgr` (`sgr.dfy`, from `color.go`) holds the templates `ESC[<code>m` and
  `ESC[<code>m<msg>ESC[0m`, and `ClearCode`, the stripper. The library strips with
  the regular expression `\033\[[\d;?]+m`. Here that is a left-to-right scanner. At
  each position it tries to match `ESC`, `[`, one or more of `[0-9;?]`, then `m`.
  On a match it skips the whole match, and otherwise it keeps one character. The
  class never contains `m`, so at most one match can start at a position. That
  makes the scanner agree with the leftmost, non-overlapping replacement the
  regular expression performs. `SequenceAtSpec` ties the scanner's recogniser to
  the pattern in both directions.
- `Render` (`render.dfy`, from `color.go` and the colour methods of
  `color_16.go`) is a class `Console` holding the process-wide state:
  - `enable` is the `Enable` switch.
  - `supportColor` and `likeInCmd` are the colour support and console kind found
    once at start-up. They are constructor parameters and read-only.
  - `output` is the text written to standard output.
  - `adapterCalls` records the requests handed to the Windows console adapter.

  `RenderCode`, `RenderString`, `Text`, `Render` and `Sprint` are functions that
  read this state. `Set`, `Reset`, `Disable`, `Print` and `Println` are methods
  that change it.

The library's comments disagree with its code in three places. The model
follows the code:

- The extra background block is commented as 100-107 (`color_16.go:60`). It is
  `iota + 99`, so `BgDarkGray`..`BgLightWhite` are 99..106.
- `BgGray` is commented as an alias of `BgDarkGray` (`color_16.go:70`). Its value
  is 100, which is `BgLightRed`, not `BgDarkGray` (99).
- `OpFastBlink` is commented as 5 (`color_16.go:82`). It is 6.

Behaviour worth noting:

- `IsValid` is `c < 107`: 106 is valid and 107 is not.
- `Set` with no colours writes the bare sequence `ESC[m`.
- Stripping is not idempotent. `ClearNotIdempotent` exhibits a text whose
  stripped form strips further.
- `RenderString` returns an empty string unchanged, while `RenderCode` still
  wraps an empty message when colouring is on. The asymmetry is kept and stated
  in `RenderStringVersusRenderCode`.
- After `Disable`, `RenderCode` with an empty code still returns the message as
  it is, not stripped.

## Model

| member | source | states |
|---|---|---|
| `Codes.Decimal` | color_16.go:169-172 | the rendering is a non-empty run of ASCII digits with no sign, and it starts with '0' only for zero (no padding) |
| `Codes.DecimalRoundTrip` | color_16.go:169-172 | parsing the digits back gives the number: the rendering loses nothing |
| `Codes.CodeString` | color_16.go:169-172 | a code's string has one to three digits, is "0" whenever it starts with '0', and parses back to the code |
| `Codes.CodeStringExamples` | color_16.go:169-172 | FgMagenta gives "35", OpReset "0", BgLightWhite "106" |
| `Codes.IsValid` | color_16.go:174-177 | a code is valid exactly when it is at most BgLightWhite (106), the highest named code, and every named code is valid |
| `Codes.ValidRange` | color_16.go:174-177 | IsValid holds exactly for codes up to 106 (107 is invalid), holds for every named constant, and also admits unnamed codes such as 50 |
| `Codes.ConstantValues` | color_16.go:19-86 | the constant blocks, written as offsets from their first constant as iota counts, give 30-37 and 39, 90-97 with FgGray = FgDarkGray, 40-47 and 49, 99-106 with BgGray = 100 = BgLightRed and not BgDarkGray, and options 0-9 with OpFastBlink = 6 |
| `Codes.FgColorsTable` | color_16.go:183-194 | "default" gives 39 and "magenta" 35, no two names share a code, and every code is a valid basic foreground constant |
| `Codes.BgColorsTable` | color_16.go:196-207 | "default" gives 49 and "black" 40, no two names share a code, and every code is a valid basic background constant |
| `Codes.ExFgColorsTable` | color_16.go:209-219 | "darkGray" gives FgGray and "lightRed" 91, no two names share a code, and every code is a valid extra foreground constant (90-97) |
| `Codes.ExBgColorsTable` | color_16.go:221-231 | "darkGray" gives 99 and "lightRed" gives BgLightRed (= BgGray), no two names share a code, and every code is a valid extra background constant (99-106) |
| `Codes.OptionsTable` | color_16.go:233-243 | "bold" gives OpBold and "reverse" 7, there is no name for fast blink or strikethrough and no name gives 6 or 9, no two names share a code, and all codes are valid |
| `Codes.JoinCodes` | color_16.go:249-261 | the parameter list is empty exactly for no codes, and one code gives just its decimal string |
| `Codes.ColorsToCode` | color_16.go:249-261 | the loop's result is the codes' decimal strings joined by ';' in input order (JoinCodes) |
| `Codes.JoinCodesShape` | color_16.go:249-261 | n codes give exactly n - 1 semicolons, and only digits and ';' occur |
| `Codes.JoinCodesRoundTrip` | color_16.go:255-260 | for a non-empty list, splitting the result at ';' gives each code's string, and parsing gives back the codes, in input order |
| `Sgr.SettingTpl` | color.go:27 | ESC[<code>m is three characters longer than the code, the code reads back from it, and it is a whole match of the stripping pattern exactly when the code is a non-empty run of [0-9;?] |
| `Sgr.FullColor` | color.go:28 | the result is the setting sequence, then the message unchanged, then ESC[0m, which is always a whole match of the stripping pattern |
| `Sgr.ResetSequence` | color.go:31-35 | ESC[0m is the setting template applied to the reset code "0", and it is a whole match of the stripping pattern |
| `Sgr.SequenceAt` | color.go:37-38 | the length of a match at the start of a text is zero (no match) or at least four, and never past the end |
| `Sgr.SequenceAtSpec` | color.go:37-38 | the scanner finds a match of length n at the start exactly when those n characters are ESC, '[', one or more of [0-9;?], 'm' |
| `Sgr.ClearCode` | color.go:128-133 | stripping never lengthens a text |
| `Sgr.ClearSubsequence` | color.go:128-133 | stripping keeps characters of the input in their order and adds none |
| `Sgr.ClearNoEsc` | color.go:128-133 | text without an escape character comes back unchanged |
| `Sgr.ClearIdentity` | color.go:128-133 | stripping leaves a text unchanged if and only if no match starts at any of its positions |
| `Sgr.ClearConcat` | color.go:128-133 | a text cut just before an escape character strips piece by piece, since no match crosses an escape |
| `Sgr.ClearAfterSetting` | color.go:27 | a setting sequence with a non-empty code of [0-9;?] is one whole match, and stripping removes it |
| `Sgr.ClearWrap` | color.go:28 | the reset sequence strips to nothing, and a wrapped message strips to what the bare message strips to |
| `Sgr.WrapRoundTrip` | color.go:28 | stripping a wrapped message that holds no escape gives the message back |
| `Sgr.ClearDocExample` | color.go:128-131 | "ESC[36;1mTextESC[0m" strips to "Text" |
| `Sgr.CutShortSequence` | color.go:37-38 | ESC, '[' and a parameter character with no closing 'm' is not a match and is left as it is |
| `Sgr.ClearNotIdempotent` | color.go:131-133 | for any parameter characters a and b, ESC[a ESC[b m m strips to ESC[a m, which strips again to "" (ESC[1ESC[2mm is one such text): stripping twice can differ from stripping once |
| `Render.Console.constructor` | color.go:40-51 | rendering starts enabled, with the given colour support and console kind, with nothing written |
| `Render.Console.RenderCode` | color.go:97-109 | an empty code returns the message unchanged whatever the flags; with colouring on a non-empty code wraps the message in ESC[<code>m and ESC[0m; with colouring off it strips the message, keeping only characters of it in order |
| `Render.Console.RenderString` | color.go:114-126 | an empty code or an empty string returns the string unchanged; otherwise the string is wrapped with colouring on and stripped with it off; with colouring off nothing is ever added |
| `Render.Console.Text` | color_16.go:107-110 | the empty message stays empty; with colouring on every other message is wrapped with the code's decimal string; with colouring off every other message is stripped, and only characters of the message remain |
| `Render.Console.Render` | color_16.go:112-117 | with colouring on every message, the empty one too, is wrapped with the code's decimal string; with colouring off the message is stripped |
| `Render.Console.Sprint` | color_16.go:119-122 | the same result as Render: wrapped with colouring on, stripped with it off |
| `Render.Console.Set` | color.go:57-69 | disabled: nothing happens and 0 is returned; console adapter: one set request; otherwise ESC[<joined codes>m is written (ESC[m for no colours) and its length returned |
| `Render.Console.Reset` | color.go:71-83 | disabled: nothing happens and 0 is returned; console adapter: one reset request; otherwise ESC[0m is written and 4 returned |
| `Render.Console.Disable` | color.go:85-88 | Enable becomes false, nothing is written, and from then on every render with a non-empty code (and non-empty string for RenderString) only strips |
| `Render.Console.Print` | color_16.go:139-146 | under the console adapter one print request, otherwise the Text rendering is written |
| `Render.Console.Println` | color_16.go:160-167 | under the console adapter one println request, otherwise the Render rendering and a newline are written |
| `Render.RenderRoundTrip` | color.go:97-109 | with colouring on and any non-empty code, the result is the message between ESC[<code>m and ESC[0m; when the code is a run of [0-9;?], stripping it gives what the message strips to (the message itself when it has no escape) |
| `Render.RenderWhenOff` | color.go:103-106 | with colouring off, a non-empty code strips the message, the result keeps only characters of the message in order, and a message without escapes is returned unchanged |
| `Render.DisabledRenderAddsNothing` | color.go:86-126 | once disabled, RenderCode and RenderString only ever drop characters of their input, whatever the code |
| `Render.RenderStringVersusRenderCode` | color.go:97-126 | RenderString equals RenderCode on non-empty strings; on "" it returns "", where RenderCode with colouring on emits ESC[<code>mESC[0m |
| `Render.ColorMethods` | color_16.go:107-123 | with colouring on, Render and Sprint always wrap with the code's decimal string, Text wraps every non-empty message, and stripping undoes each |
| `Render.AlertScenario` | color.go:114-126 | "35;1" renders "alert" as "ESC[35;1malertESC[0m" with colouring on and as "alert" with it off; "32" renders "hi" as "ESC[32mhiESC[0m" |

## Left out

- `fmt.Sprint` over `interface{}` arguments: each message is modelled as the already-built string, because operand spacing and format verbs are library behaviour outside this model.
- `Sprintf` and `Printf`: once `fmt.Sprintf` has built the message they are `Text` and `Print`, so they are not modelled separately.
- `IsSupportColor()` and the detection that sets `isLikeInCmd` are not part of this model. Their results are the `Console` constructor's parameters. The comment that the two flags always differ (color.go:49) is not enforced: the `Console` constructor accepts any pair.
- `winSet`, `winReset`, `winPrint` and `winPrintln` are not part of this model. A call to one is recorded in `adapterCalls`, and its effect on the console is not modelled.
- `Render.Console.Set`: under the console adapter it returns 0, because the adapter's own count is not modelled. The write error result is dropped.
- `Render.Console.Reset`: under the console adapter it returns 0, because the adapter's own count is not modelled. The write error result is dropped.
- The Go `regexp` engine is replaced by the scanner `ClearCode`. It implements the same pattern with leftmost, non-overlapping replacement.
- `ModeNormal`, `Mode256`, `ModeRGB` and `ModeGrayscale` are left out, because no code uses them.
- Go strings are byte strings and may hold invalid UTF-8, while the model uses sequences of characters. No behaviour is lost: every character of the templates and of the pattern is ASCII, so the number of bytes `Set` writes equals the length it returns.
- Concurrent access to the flags is left out, because the model is single-threaded.
