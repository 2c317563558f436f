/**
 * `generateColorThemes`: read the palette tokens, optionally override the
 * background and foreground slots from `colors.json` (strict parse, then one
 * lenient retry without `wallpaper` lines), decide between abort, warn and
 * proceed, and write the plain and bordered themes.
 *
 * File contents and existence are inputs. `Color(...)`, `JSON.parse` and the
 * theme template are foreign: they are abstract partial functions here,
 * with `None` standing for a thrown exception.
 */
module Palette {
  import opened Wrappers
  import opened TextSplit

  /** Tokens kept from the palette file: `split(/\s+/, 16)`. */
  const TokenLimit: nat := 16
  /** The slot `special.background` overrides. */
  const BackgroundSlot: nat := 0
  /** The slot `special.foreground` overrides. */
  const ForegroundSlot: nat := 7
  /** Lines containing this are dropped before the lenient retry. */
  const LenientMarker: string := "wallpaper"

  /** A JavaScript array of colours; `None` is a hole, left when a slot past
      the end is assigned. */
  type JsArray<C> = seq<Option<C>>

  /** The foreign calls; `None` stands for a thrown exception. */
  datatype Foreign<C, !J> = Foreign(
    toColor: string -> Option<C>,     // Color(hex)
    parseJson: string -> Option<J>,   // JSON.parse(text)
    background: J -> Option<C>,       // Color(json?.special?.background)
    foreground: J -> Option<C>)       // Color(json?.special?.foreground)

  /** What the file system holds under the cache directory: the contents of
      `colors` (`None` when reading throws), whether `colors.json` exists,
      and its contents (`None` when reading throws). */
  datatype CacheFiles = CacheFiles(colors: Option<string>, colorsJsonExists: bool, colorsJson: Option<string>)

  /** The state of `colors.json`: absent, unusable (unreadable or failing
      both parses), or parsed. */
  datatype Metadata<J> = NoMetadata | Unusable | Parsed(json: J)

  /** The failure policy's verdict: abort with an error message, or go on to
      the theme writes with these colours, with or without a warning. */
  datatype Outcome<C> = Aborted | Proceed(colors: JsArray<C>, warned: bool)

  /** The two theme files: `themes/wallflow.json` and `themes/wallflow-bordered.json`. */
  datatype ThemeFile = Plain | Bordered

  /** The palette tokens: the first sixteen fields of the file, in order. */
  function Tokens(raw: string): (ts: seq<string>)
    ensures 1 <= |ts| <= TokenLimit
    ensures ts <= Fields(raw)
    ensures |ts| < TokenLimit ==> ts == Fields(raw)
    ensures forall k :: 0 <= k < |ts| ==> NoWhitespace(ts[k])
  {
    SplitWhitespace(raw, TokenLimit)
  }

  /** A file of non-empty words separated by whitespace runs (one space,
      several, `\r\n`, a mix), optionally ending in one more run: the
      tokens are its first sixteen words; a short file whose last line ends
      in a line break also yields one empty token after its words. */
  lemma {:induction false} TokensOfPaletteFile(ws: seq<string>, gaps: seq<string>, tail: string)
    requires |ws| >= 1 && |gaps| == |ws| - 1
    requires Words(ws)
    requires forall k :: 0 <= k < |gaps| ==> IsRun(gaps[k])
    requires tail == [] || IsRun(tail)
    ensures |ws| >= TokenLimit ==> Tokens(Interleave(ws, gaps) + tail) == ws[..TokenLimit]
    ensures |ws| < TokenLimit && tail == [] ==> Tokens(Interleave(ws, gaps) + tail) == ws
    ensures |ws| < TokenLimit && tail != [] ==> Tokens(Interleave(ws, gaps) + tail) == ws + [[]]
  {
    var text := Interleave(ws, gaps) + tail;
    var expected: seq<string> := if tail == [] then ws else ws + [[]];
    FieldsOfInterleave(ws, gaps, tail);
    assert Fields(text) == expected;
    assert Tokens(text) == if |expected| <= TokenLimit then expected else expected[..TokenLimit];
    if |ws| >= TokenLimit && tail != [] {
      assert expected[..TokenLimit] == ws[..TokenLimit];
    }
  }

  /** Palette text that starts with whitespace yields an empty first token. */
  lemma {:induction false} LeadingWhitespaceGivesEmptyToken(raw: string)
    requires |raw| >= 1 && IsWhitespace(raw[0])
    ensures Tokens(raw)[0] == []
  {
    assert WordLength(raw) == 0;
    assert Fields(raw)[0] == raw[..0];
  }

  /** `tokens.map(hex => Color(hex))`: fails when any token fails. */
  function ToColors<C>(tokens: seq<string>, toColor: string -> Option<C>): (r: Option<seq<C>>)
    ensures r.Some? <==> forall k :: 0 <= k < |tokens| ==> toColor(tokens[k]).Some?
    ensures r.Some? ==> |r.value| == |tokens|
    ensures r.Some? ==> forall k :: 0 <= k < |tokens| ==> toColor(tokens[k]) == Some(r.value[k])
  {
    if tokens == [] then Some([])
    else match toColor(tokens[0])
      case None => None
      case Some(c) =>
        match ToColors(tokens[1..], toColor)
        case None => None
        case Some(cs) => Some([c] + cs)
  }

  function AsArray<C>(cs: seq<C>): (a: JsArray<C>)
    ensures |a| == |cs| && forall k :: 0 <= k < |cs| ==> a[k] == Some(cs[k])
  {
    seq(|cs|, k requires 0 <= k < |cs| => Some(cs[k]))
  }

  /** `a[i] = c` on a JavaScript array: past the end, the array grows to
      `i + 1` slots and the ones in between are holes. */
  function SetSlot<C>(a: JsArray<C>, i: nat, c: C): (r: JsArray<C>)
    ensures |r| == if i < |a| then |a| else i + 1
    ensures r[i] == Some(c)
    ensures forall k :: 0 <= k < |a| && k != i ==> r[k] == a[k]
    ensures forall k :: |a| <= k < |r| && k != i ==> r[k] == None
  {
    if i < |a| then a[i := Some(c)]
    else a + seq(i - |a|, _ => None) + [Some(c)]
  }

  /** The colours read from the palette file (lines 117-120), or `None`
      when reading or a conversion throws. */
  function PrimaryColors<C>(colorsText: Option<string>, toColor: string -> Option<C>): (r: Option<JsArray<C>>)
    ensures r.Some? <==> colorsText.Some? && forall k :: 0 <= k < |Tokens(colorsText.value)| ==> toColor(Tokens(colorsText.value)[k]).Some?
    ensures r.Some? ==> 1 <= |r.value| <= TokenLimit
    ensures r.Some? ==> |r.value| == |Tokens(colorsText.value)|
    ensures r.Some? ==> forall k :: 0 <= k < |r.value| ==> r.value[k] == toColor(Tokens(colorsText.value)[k])
  {
    match colorsText
    case None => None
    case Some(text) =>
      match ToColors(Tokens(text), toColor)
      case None => None
      case Some(cs) => Some(AsArray(cs))
  }

  /** `colors.json` parsed strictly, and on failure once more without its
      `wallpaper` lines. */
  function ParseColorsJson<J>(raw: string, parseJson: string -> Option<J>): (r: Option<J>)
    ensures parseJson(raw).Some? ==> r == parseJson(raw)
    ensures r.None? <==> parseJson(raw).None? && parseJson(DropLinesContaining(raw, LenientMarker)).None?
    ensures r.Some? ==> r == parseJson(raw) || r == parseJson(DropLinesContaining(raw, LenientMarker))
  {
    match parseJson(raw)
    case Some(j) => Some(j)
    case None => parseJson(DropLinesContaining(raw, LenientMarker))
  }

  /** Without `wallpaper` lines the retry sees the same text, so the outcome
      is the strict parse's. */
  lemma {:induction false} RetryNeedsMarkedLines<J>(raw: string, parseJson: string -> Option<J>)
    requires forall k :: 0 <= k < |SplitOn(raw, '\n')| ==> !Contains(SplitOn(raw, '\n')[k], LenientMarker)
    ensures ParseColorsJson(raw, parseJson) == parseJson(raw)
  {
    DropLinesUnmarked(raw, LenientMarker);
  }

  /** One retry is all a retry can do: when both attempts fail, running the
      two-attempt parse again on the filtered text fails too. */
  lemma {:induction false} NoThirdAttemptHelps<J>(raw: string, parseJson: string -> Option<J>)
    requires ParseColorsJson(raw, parseJson).None?
    ensures ParseColorsJson(DropLinesContaining(raw, LenientMarker), parseJson).None?
  {
    DropLinesIdempotent(raw, LenientMarker);
  }

  /** The state of `colors.json` (lines 122-142). */
  function ReadMetadata<J>(files: CacheFiles, parseJson: string -> Option<J>): (m: Metadata<J>)
    ensures m.NoMetadata? <==> !files.colorsJsonExists
    ensures m.Parsed? <==>
      (files.colorsJsonExists && files.colorsJson.Some? && ParseColorsJson(files.colorsJson.value, parseJson).Some?)
    ensures m.Parsed? ==> Some(m.json) == ParseColorsJson(files.colorsJson.value, parseJson)
  {
    if !files.colorsJsonExists then NoMetadata
    else match files.colorsJson
      case None => Unusable
      case Some(raw) =>
        match ParseColorsJson(raw, parseJson)
        case None => Unusable
        case Some(j) => Parsed(j)
  }

  /** The outcome of lines 115-155, by cases: abort without palette colours;
      otherwise the token colours, with slot 0 and then slot 7 overwritten
      as far as the overrides succeed, and a warning when anything after the
      token colours failed. */
  ghost function ExpectedOutcome<C, J>(files: CacheFiles, f: Foreign<C, J>): Outcome<C> {
    match PrimaryColors(files.colors, f.toColor)
    case None => Aborted
    case Some(base) =>
      match ReadMetadata(files, f.parseJson)
      case NoMetadata => Proceed(base, false)
      case Unusable => Proceed(base, true)
      case Parsed(j) =>
        match f.background(j)
        case None => Proceed(base, true)
        case Some(bg) =>
          match f.foreground(j)
          case None => Proceed(SetSlot(base, BackgroundSlot, bg), true)
          case Some(fg) => Proceed(SetSlot(SetSlot(base, BackgroundSlot, bg), ForegroundSlot, fg), false)
  }

  /** Abort happens exactly when the palette file cannot be read or one of
      its tokens is not a colour; it never depends on `colors.json`. */
  lemma {:induction false} AbortIff<C, J>(files: CacheFiles, f: Foreign<C, J>)
    ensures ExpectedOutcome(files, f).Aborted? <==>
      files.colors.None? || exists k :: 0 <= k < |Tokens(files.colors.value)| && f.toColor(Tokens(files.colors.value)[k]).None?
  {
  }

  /** A warning is shown exactly when `colors.json` exists and is not fully
      applied; without it the palette is the token colours. */
  lemma {:induction false} WarnIff<C, J>(files: CacheFiles, f: Foreign<C, J>)
    requires ExpectedOutcome(files, f).Proceed?
    ensures var m := ReadMetadata(files, f.parseJson);
      ExpectedOutcome(files, f).warned <==>
        m.Unusable? || (m.Parsed? && (f.background(m.json).None? || f.foreground(m.json).None?))
    ensures !files.colorsJsonExists ==>
      ExpectedOutcome(files, f).colors == PrimaryColors(files.colors, f.toColor).value
  {
  }

  /** With both overrides applied: slot 0 is the background, slot 7 the
      foreground, every other token slot keeps its colour, and a palette of
      fewer than eight tokens grows to eight slots with holes in between. */
  lemma {:induction false} OverridesApplied<C, J>(files: CacheFiles, f: Foreign<C, J>, j: J, bg: C, fg: C)
    requires PrimaryColors(files.colors, f.toColor).Some?
    requires ReadMetadata(files, f.parseJson) == Parsed(j)
    requires f.background(j) == Some(bg) && f.foreground(j) == Some(fg)
    ensures var base := PrimaryColors(files.colors, f.toColor).value;
      var out := ExpectedOutcome(files, f);
      && out.Proceed? && !out.warned
      && |out.colors| == (if |base| > ForegroundSlot then |base| else ForegroundSlot + 1)
      && out.colors[BackgroundSlot] == Some(bg)
      && out.colors[ForegroundSlot] == Some(fg)
      && (forall k :: 0 <= k < |base| && k != BackgroundSlot && k != ForegroundSlot ==> out.colors[k] == base[k])
      && (forall k :: |base| <= k < ForegroundSlot ==> out.colors[k] == None)
  {
    var base := PrimaryColors(files.colors, f.toColor).value;
    var a := SetSlot(base, BackgroundSlot, bg);
    assert |a| == |base|;
  }

  /** The overrides run in order: when the background converts and the
      foreground does not, slot 0 is already overwritten and slot 7 keeps
      its token colour (or is absent); when the background fails, nothing
      is overwritten. */
  lemma {:induction false} OverridesInOrder<C, J>(files: CacheFiles, f: Foreign<C, J>, j: J)
    requires PrimaryColors(files.colors, f.toColor).Some?
    requires ReadMetadata(files, f.parseJson) == Parsed(j)
    requires f.background(j).None? || f.foreground(j).None?
    ensures var base := PrimaryColors(files.colors, f.toColor).value;
      var out := ExpectedOutcome(files, f);
      && out.Proceed? && out.warned && |out.colors| == |base|
      && (f.background(j).None? ==> out.colors == base)
      && (f.background(j).Some? ==>
            out.colors[BackgroundSlot] == f.background(j)
            && forall k :: 0 < k < |base| ==> out.colors[k] == base[k])
  {
  }

  /** Lines 115-155: the `try` that assigns `colors` and overwrites slots 0
      and 7, and the `catch` that aborts when `colors` is unassigned or
      empty and otherwise warns. */
  method LoadColors<C, J>(files: CacheFiles, f: Foreign<C, J>) returns (outcome: Outcome<C>)
    ensures outcome == ExpectedOutcome(files, f)
  {
    var colors: Option<JsArray<C>> := None;
    var failed := false;
    if files.colors.None? {
      failed := true;
    } else {
      var converted := ToColors(Tokens(files.colors.value), f.toColor);
      if converted.None? {
        failed := true;
      } else {
        colors := Some(AsArray(converted.value));
        if files.colorsJsonExists {
          if files.colorsJson.None? {
            failed := true;
          } else {
            var colorsJson := ParseColorsJson(files.colorsJson.value, f.parseJson);
            if colorsJson.None? {
              failed := true;
            } else {
              var bg := f.background(colorsJson.value);
              if bg.None? {
                failed := true;
              } else {
                colors := Some(SetSlot(colors.value, BackgroundSlot, bg.value));
                var fg := f.foreground(colorsJson.value);
                if fg.None? {
                  failed := true;
                } else {
                  colors := Some(SetSlot(colors.value, ForegroundSlot, fg.value));
                }
              }
            }
          }
        }
      }
    }
    if failed {
      if colors.None? || |colors.value| == 0 {
        return Aborted;
      }
      return Proceed(colors.value, true);
    }
    return Proceed(colors.value, false);
  }

  /** Lines 157-163: the plain theme is built and written, then the
      bordered one. Neither the template nor a write is inside a `try`, so
      the first that throws ends the function and nothing after it runs. */
  method WriteThemes<C, T>(colors: JsArray<C>, template: (JsArray<C>, bool) -> Option<T>, writeSucceeds: ThemeFile -> bool)
    returns (written: seq<(ThemeFile, T)>, threw: bool)
    ensures threw <==> !ThemeWritten(colors, template, writeSucceeds, Plain) || !ThemeWritten(colors, template, writeSucceeds, Bordered)
    ensures |written| == (if !ThemeWritten(colors, template, writeSucceeds, Plain) then 0
                          else if !ThemeWritten(colors, template, writeSucceeds, Bordered) then 1 else 2)
    ensures |written| >= 1 ==> template(colors, false).Some? && written[0] == (Plain, template(colors, false).value)
    ensures |written| == 2 ==> template(colors, true).Some? && written[1] == (Bordered, template(colors, true).value)
  {
    written, threw := [], false;
    var colorTheme := template(colors, false);
    if colorTheme.None? || !writeSucceeds(Plain) {
      return written, true;
    }
    written := written + [(Plain, colorTheme.value)];
    var colorThemeBordered := template(colors, true);
    if colorThemeBordered.None? || !writeSucceeds(Bordered) {
      return written, true;
    }
    written := written + [(Bordered, colorThemeBordered.value)];
  }

  /** The theme for `file` is built without throwing and its write succeeds. */
  predicate ThemeWritten<C, T>(colors: JsArray<C>, template: (JsArray<C>, bool) -> Option<T>,
                               writeSucceeds: ThemeFile -> bool, file: ThemeFile)
  {
    template(colors, file == Bordered).Some? && writeSucceeds(file)
  }

  /** `generateColorThemes`: on abort nothing is written; otherwise both
      themes are built from the same colours. */
  method GenerateColorThemes<C, J, T>(files: CacheFiles, f: Foreign<C, J>,
                                       template: (JsArray<C>, bool) -> Option<T>, writeSucceeds: ThemeFile -> bool)
    returns (outcome: Outcome<C>, written: seq<(ThemeFile, T)>, threw: bool)
    ensures outcome == ExpectedOutcome(files, f)
    ensures outcome.Aborted? ==> written == [] && !threw
    ensures outcome.Proceed? ==>
      var plain := ThemeWritten(outcome.colors, template, writeSucceeds, Plain);
      var bordered := ThemeWritten(outcome.colors, template, writeSucceeds, Bordered);
      && (threw <==> !plain || !bordered)
      && |written| == (if !plain then 0 else if !bordered then 1 else 2)
      && (|written| >= 1 ==> written[0] == (Plain, template(outcome.colors, false).value))
      && (|written| == 2 ==> written[1] == (Bordered, template(outcome.colors, true).value))
  {
    outcome := LoadColors(files, f);
    if outcome.Aborted? {
      return outcome, [], false;
    }
    written, threw := WriteThemes(outcome.colors, template, writeSucceeds);
  }
}
