/** The renderer: the flags that decide whether text is coloured or
    stripped, the render functions that read them, and the entry points
    that write to the output stream or hand over to the console adapter. */
module Render {
  import opened Codes
  import opened Sgr

  /** A request handed to the console adapter of a console that does not
      interpret escape sequences; the adapter itself is outside the model. */
  datatype AdapterCall =
    | WinSet(colors: seq<Color>)
    | WinReset
    | WinPrint(message: string, color: Color)
    | WinPrintln(message: string, color: Color)

  /** The process-wide rendering state: the Enable switch, the colour
      support and console kind found once at start-up, the text written to
      standard output so far, and the requests made to the adapter. */
  class Console {
    var enable: bool
    const supportColor: bool
    const likeInCmd: bool
    var output: string
    var adapterCalls: seq<AdapterCall>

    constructor (supportColor: bool, likeInCmd: bool)
      ensures enable && this.supportColor == supportColor && this.likeInCmd == likeInCmd
      ensures output == [] && adapterCalls == []
    {
      enable := true;
      this.supportColor := supportColor;
      this.likeInCmd := likeInCmd;
      output := [];
      adapterCalls := [];
    }

    /** Colouring is on: enabled and supported. */
    predicate Colored()
      reads this
    {
      enable && supportColor
    }

    /** RenderCode: an empty code leaves the message alone whatever the
        flags; otherwise, with colouring on, the message is wrapped in the
        code's setting sequence and a reset, and with colouring off it is
        stripped, which only drops characters of the message. */
    function RenderCode(code: string, message: string): (r: string)
      reads this
      ensures code == "" ==> r == message
      ensures code != "" && Colored() ==> r == FullColor(code, message)
      ensures code != "" && !Colored() ==> r == ClearCode(message) && IsSubsequence(r, message)
    {
      if |code| == 0 then message
      else if !enable || !supportColor then
        ClearSubsequence(message);
        ClearCode(message)
      else FullColor(code, message)
    }

    /** RenderString: like RenderCode, except that an empty string is
        returned as it is, never wrapped. */
    function RenderString(code: string, str: string): (r: string)
      reads this
      ensures code == "" || str == "" ==> r == str
      ensures code != "" && str != "" && Colored() ==> r == FullColor(code, str)
      ensures code != "" && !Colored() ==> IsSubsequence(r, str)
      ensures code != "" && str != "" && !Colored() ==> r == ClearCode(str)
    {
      if |code| == 0 || str == "" then
        SubsequenceRefl(str);
        str
      else if !enable || !supportColor then
        ClearSubsequence(str);
        ClearCode(str)
      else FullColor(code, str)
    }

    /** Color.Text: with colouring on, every non-empty message is wrapped
        in the code's decimal string; the empty message stays empty; with
        colouring off every other message is stripped, so the result only
        drops characters of the message. */
    function Text(c: Color, message: string): (r: string)
      reads this
      ensures message == "" ==> r == ""
      ensures message != "" && Colored() ==> r == FullColor(CodeString(c), message)
      ensures message != "" && !Colored() ==> r == ClearCode(message)
      ensures !Colored() ==> IsSubsequence(r, message)
    {
      RenderString(CodeString(c), message)
    }

    /** Color.Render: the code's decimal string is never empty, so with
        colouring on every message, the empty one included, is wrapped, and
        with colouring off the message is stripped. */
    function Render(c: Color, message: string): (r: string)
      reads this
      ensures Colored() ==> r == FullColor(CodeString(c), message)
      ensures !Colored() ==> r == ClearCode(message) && IsSubsequence(r, message)
    {
      RenderCode(CodeString(c), message)
    }

    /** Color.Sprint, an alias of Render. */
    function Sprint(c: Color, message: string): (r: string)
      reads this
      ensures Colored() ==> r == FullColor(CodeString(c), message)
      ensures !Colored() ==> r == ClearCode(message) && IsSubsequence(r, message)
    {
      RenderCode(CodeString(c), message)
    }

    /** Set: when enabled, sets the attributes of colors and leaves them
        on, writing ESC[<codes>m (ESC[m for no colours) or asking the
        adapter; n is the number of characters written. */
    method Set(colors: seq<Color>) returns (n: nat)
      modifies this
      ensures enable == old(enable)
      ensures !enable ==> n == 0 && output == old(output) && adapterCalls == old(adapterCalls)
      ensures enable && likeInCmd ==>
        n == 0 && output == old(output) && adapterCalls == old(adapterCalls) + [WinSet(colors)]
      ensures enable && !likeInCmd ==>
        output == old(output) + SettingTpl(JoinCodes(colors)) && adapterCalls == old(adapterCalls)
      ensures enable && !likeInCmd ==> n == |output| - |old(output)|
      ensures enable && !likeInCmd && colors == [] ==> output == old(output) + [Esc, '[', 'm']
    {
      if !enable {
        return 0;
      }
      if likeInCmd {
        adapterCalls := adapterCalls + [WinSet(colors)];
        return 0;
      }
      var code := ColorsToCode(colors);
      JoinCodesShape(colors);
      var written := SettingTpl(code);
      output := output + written;
      n := |written|;
    }

    /** Reset: when enabled, turns every attribute off, writing ESC[0m or
        asking the adapter. */
    method Reset() returns (n: nat)
      modifies this
      ensures enable == old(enable)
      ensures !enable ==> n == 0 && output == old(output) && adapterCalls == old(adapterCalls)
      ensures enable && likeInCmd ==>
        n == 0 && output == old(output) && adapterCalls == old(adapterCalls) + [WinReset]
      ensures enable && !likeInCmd ==>
        n == 4 && output == old(output) + ResetSet && adapterCalls == old(adapterCalls)
    {
      if !enable {
        return 0;
      }
      if likeInCmd {
        adapterCalls := adapterCalls + [WinReset];
        return 0;
      }
      output := output + ResetSet;
      n := |ResetSet|;
    }

    /** Disable: switches colouring off for good; from then on every render
        with a code only strips. */
    method Disable()
      modifies this
      ensures !enable && !Colored()
      ensures output == old(output) && adapterCalls == old(adapterCalls)
      ensures forall code, message :: code != "" ==> RenderCode(code, message) == ClearCode(message)
      ensures forall code, str :: code != "" && str != "" ==> RenderString(code, str) == ClearCode(str)
    {
      enable := false;
    }

    /** Color.Print: the message rendered by Text, or handed to the adapter. */
    method Print(c: Color, message: string)
      modifies this
      ensures enable == old(enable)
      ensures likeInCmd ==>
        output == old(output) && adapterCalls == old(adapterCalls) + [WinPrint(message, c)]
      ensures !likeInCmd ==>
        output == old(output) + Text(c, message) && adapterCalls == old(adapterCalls)
    {
      if likeInCmd {
        adapterCalls := adapterCalls + [WinPrint(message, c)];
      } else {
        output := output + RenderString(CodeString(c), message);
      }
    }

    /** Color.Println: the message rendered by Render and a newline, or
        handed to the adapter. */
    method Println(c: Color, message: string)
      modifies this
      ensures enable == old(enable)
      ensures likeInCmd ==>
        output == old(output) && adapterCalls == old(adapterCalls) + [WinPrintln(message, c)]
      ensures !likeInCmd ==>
        output == old(output) + Render(c, message) + "\n" && adapterCalls == old(adapterCalls)
    {
      if likeInCmd {
        adapterCalls := adapterCalls + [WinPrintln(message, c)];
      } else {
        output := output + RenderCode(CodeString(c), message) + "\n";
      }
    }
  }

  /*************************************************************
   * Properties of rendering
   *************************************************************/

  /** Digits are parameter characters, so a code string is one. */
  lemma CodeStringIsParams(c: Color)
    ensures CodeString(c) != [] && AllParamChars(CodeString(c))
  {
  }

  /** With colouring on, a message rendered with any non-empty code is
      the message between a setting sequence and a reset. When the code is
      a run of [0-9;?], stripping the result undoes the rendering: it
      strips to what the message alone strips to, and gives the message
      back when it holds no escape. */
  lemma RenderRoundTrip(con: Console, code: string, message: string)
    requires con.enable && con.supportColor
    requires code != ""
    ensures con.RenderCode(code, message) == SettingTpl(code) + message + ResetSet
    ensures AllParamChars(code) ==> ClearCode(con.RenderCode(code, message)) == ClearCode(message)
    ensures AllParamChars(code) && Esc !in message ==> ClearCode(con.RenderCode(code, message)) == message
  {
    if AllParamChars(code) {
      ClearWrap(code, message);
      if Esc !in message {
        WrapRoundTrip(code, message);
      }
    }
  }

  /** With colouring off, rendering with a code strips the message: the
      result only drops characters of the message, and a message without
      escapes comes back unchanged. */
  lemma RenderWhenOff(con: Console, code: string, message: string)
    requires !(con.enable && con.supportColor)
    ensures IsSubsequence(con.RenderCode(code, message), message)
    ensures code != "" ==> con.RenderCode(code, message) == ClearCode(message)
    ensures Esc !in message ==> con.RenderCode(code, message) == message
  {
    if code == "" {
      SubsequenceRefl(message);
    } else {
      ClearSubsequence(message);
      if Esc !in message {
        ClearNoEsc(message);
      }
    }
  }

  /** After Disable no render adds anything: every result keeps only
      characters of its message, in order, whatever the code. */
  lemma DisabledRenderAddsNothing(con: Console)
    requires !con.enable
    ensures forall code, message :: IsSubsequence(con.RenderCode(code, message), message)
    ensures forall code, str :: IsSubsequence(con.RenderString(code, str), str)
  {
    forall code, message
      ensures IsSubsequence(con.RenderCode(code, message), message)
      ensures IsSubsequence(con.RenderString(code, message), message)
    {
      RenderWhenOff(con, code, message);
      if message == "" {
        assert con.RenderString(code, message) == message;
        SubsequenceRefl(message);
      }
    }
  }

  /** RenderString agrees with RenderCode on every non-empty string; on the
      empty string it returns "" where RenderCode, with colouring on and a
      code, still emits the setting and the reset. */
  lemma RenderStringVersusRenderCode(con: Console, code: string, str: string)
    ensures str != "" ==> con.RenderString(code, str) == con.RenderCode(code, str)
    ensures con.RenderString(code, "") == ""
    ensures code != "" && con.enable && con.supportColor ==>
      con.RenderCode(code, "") == SettingTpl(code) + ResetSet != ""
  {
  }

  /** The colour methods render with the code's decimal string, which is
      never empty: with colouring on, Render and Sprint always wrap, Text
      wraps every non-empty message, and stripping undoes each of them. */
  lemma ColorMethods(con: Console, c: Color, message: string)
    requires con.enable && con.supportColor
    ensures con.Render(c, message) == con.Sprint(c, message) == FullColor(CodeString(c), message)
    ensures message != "" ==> con.Text(c, message) == FullColor(CodeString(c), message)
    ensures ClearCode(con.Render(c, message)) == ClearCode(message)
    ensures ClearCode(con.Text(c, message)) == ClearCode(message)
  {
    CodeStringIsParams(c);
    ClearWrap(CodeString(c), message);
  }

  /** Two rendering examples: "35;1" wraps "alert" when colouring is on
      and leaves it as it is when colouring is off; "32" wraps "hi". */
  lemma AlertScenario(con: Console)
    ensures con.Colored() ==>
      con.RenderString("35;1", "alert") == "\U{1b}[35;1malert\U{1b}[0m"
    ensures !con.Colored() ==> con.RenderString("35;1", "alert") == "alert"
    ensures con.Colored() ==> con.RenderCode("32", "hi") == "\U{1b}[32mhi\U{1b}[0m"
  {
    if !con.Colored() {
      ClearNoEsc("alert");
    }
  }
}
